/** Whole address spaces of processes (kernel/proc.c: proc_pagetable, proc_freepagetable). */
module AddressSpace {
  import opened Common
  import opened Sv39
  import opened PageTable
  import opened TearDown
  import opened FrameCount
  import opened VirtualMemory

  /** Page numbers of the three pages above user memory. */
  const TRAMPOLINE := MAXVPN - 1
  const TRAPFRAME := MAXVPN - 2
  const USYSCALL := MAXVPN - 3

  const READ_EXEC := Perm(true, false, true, false, false, false, 0)
  const READ_WRITE := Perm(true, true, false, false, false, false, 0)
  const USER_READ := Perm(true, false, false, true, false, false, 0)

  /** The frame is part of root's address space, or is one of the two pages kept for process p. */
  predicate Belongs(u: Use, root: nat, p: Option<nat>)
  {
    || (u.Table? && u.root == root) || (u.Page? && u.root == root)
    || (u.ProcPage? && Some(u.p) == p)
  }

  /** Free frames and those that belong to (root, p) may have been exchanged for each other. All
      other frames kept their use and contents, and all other address spaces are as they were. */
  ghost predicate Others(ts0: Tables, use0: seq<Use>, pages0: seq<PageBytes>,
                         ts1: Tables, use1: seq<Use>, pages1: seq<PageBytes>, root: nat, p: Option<nat>)
  {
    && |use1| == |use0| == |pages0| == |pages1|
    && (forall f :: 0 <= f < |use0| ==>
          if use0[f].Free? || Belongs(use0[f], root, p) then use1[f].Free? || Belongs(use1[f], root, p)
          else use1[f] == use0[f] && pages1[f] == pages0[f])
    && (forall q, w :: IsRoot(use0, q) && q != root && 0 <= w < MAXVPN ==> Leaf(ts1, q, w) == Leaf(ts0, q, w))
  }

  lemma OthersTwice(ts0: Tables, use0: seq<Use>, pages0: seq<PageBytes>, ts1: Tables, use1: seq<Use>,
                    pages1: seq<PageBytes>, ts2: Tables, use2: seq<Use>, pages2: seq<PageBytes>, root: nat, p:
                    Option<nat>)
    requires Others(ts0, use0, pages0, ts1, use1, pages1, root, p)
    requires Others(ts1, use1, pages1, ts2, use2, pages2, root, p)
    ensures Others(ts0, use0, pages0, ts2, use2, pages2, root, p)
  {
  }

  /** The same for what belongs to (r1, p1) or to (r2, p2). */
  ghost predicate OthersOfTwo(ts0: Tables, use0: seq<Use>, pages0: seq<PageBytes>,
                              ts1: Tables, use1: seq<Use>, pages1: seq<PageBytes>, r1: nat, p1: Option<nat>, r2: nat,
                              p2: Option<nat>)
  {
    && |use1| == |use0| == |pages0| == |pages1|
    && (forall f :: 0 <= f < |use0| ==>
          if use0[f].Free? || Belongs(use0[f], r1, p1) || Belongs(use0[f], r2, p2)
          then use1[f].Free? || Belongs(use1[f], r1, p1) || Belongs(use1[f], r2, p2)
          else use1[f] == use0[f] && pages1[f] == pages0[f])
    && (forall q, w :: IsRoot(use0, q) && q != r1 && q != r2 && 0 <= w < MAXVPN ==> Leaf(ts1, q, w) == Leaf(ts0, q, w))
  }

  lemma OthersPair(ts0: Tables, use0: seq<Use>, pages0: seq<PageBytes>, ts1: Tables, use1: seq<Use>,
                   pages1: seq<PageBytes>, ts2: Tables, use2: seq<Use>, pages2: seq<PageBytes>, r1: nat, p1:
                   Option<nat>, r2: nat, p2: Option<nat>)
    requires Others(ts0, use0, pages0, ts1, use1, pages1, r1, p1)
    requires Others(ts1, use1, pages1, ts2, use2, pages2, r2, p2)
    ensures OthersOfTwo(ts0, use0, pages0, ts2, use2, pages2, r1, p1, r2, p2)
  {
    hide Leaf;
  }

  lemma OthersMore(ts0: Tables, use0: seq<Use>, pages0: seq<PageBytes>, ts1: Tables, use1: seq<Use>,
                   pages1: seq<PageBytes>, root: nat, p: Option<nat>)
    requires Others(ts0, use0, pages0, ts1, use1, pages1, root, None)
    ensures Others(ts0, use0, pages0, ts1, use1, pages1, root, p)
  {
  }

  lemma OthersSame(ts: Tables, use: seq<Use>, pages: seq<PageBytes>, root: nat, p: Option<nat>)
    requires |use| == |pages|
    ensures Others(ts, use, pages, ts, use, pages, root, p)
  {
  }

  lemma GainedOthers(ts0: Tables, use0: seq<Use>, pages0: seq<PageBytes>, ts1: Tables, use1: seq<Use>,
                     pages1: seq<PageBytes>, root: nat, lo: nat, hi: nat)
    requires Gained(use0, pages0, use1, pages1, root, lo, hi) && OnlyPages(ts0, use0, ts1, root, lo, hi)
    ensures Others(ts0, use0, pages0, ts1, use1, pages1, root, None)
  {
  }

  lemma TablesOthers(ts0: Tables, use0: seq<Use>, pages0: seq<PageBytes>, ts1: Tables, use1: seq<Use>,
                     pages1: seq<PageBytes>, root: nat, v: nat)
    requires NewTables(use0, pages0, use1, pages1, root) && OnlyPages(ts0, use0, ts1, root, v, v + 1)
    ensures Others(ts0, use0, pages0, ts1, use1, pages1, root, None)
  {
  }

  lemma ReleasedOthers(ts0: Tables, use0: seq<Use>, pages0: seq<PageBytes>, ts1: Tables, use1: seq<Use>,
                       pages1: seq<PageBytes>, root: nat, lo: nat, hi: nat)
    requires use1 == Released(use0, root, lo, hi) && SamePages(use0, pages0, use1, pages1)
    requires OnlyPages(ts0, use0, ts1, root, lo, hi)
    ensures Others(ts0, use0, pages0, ts1, use1, pages1, root, None)
  {
  }

  /** The uses after all that belongs to (root, p) has been freed. */
  function Freed(use: seq<Use>, root: nat, p: Option<nat>): (r: seq<Use>)
    ensures |r| == |use|
    ensures forall f :: 0 <= f < |use| ==> r[f] == if Belongs(use[f], root, p) then Free else use[f]
  {
    seq(|use|, f requires 0 <= f < |use| => if Belongs(use[f], root, p) then Free else use[f])
  }

  /** Page v is mapped to a frame with these permissions, whatever accesses the hardware has recorded. */
  ghost predicate MappedTo(ts: Tables, root: nat, v: nat, ppn: nat, perm: Perm)
  {
    Leaf(ts, root, v).v && Leaf(ts, root, v).ppn == ppn && Leaf(ts, root, v).perm.Core() == perm
  }

  /** The three pages above user memory are mapped as every address space has them. */
  ghost predicate Fixed(ts: Tables, root: nat, trampoline: nat, tf: nat, us: nat)
  {
    && MappedTo(ts, root, TRAMPOLINE, trampoline, READ_EXEC) && MappedTo(ts, root, TRAPFRAME, tf, READ_WRITE)
    && MappedTo(ts, root, USYSCALL, us, USER_READ)
  }

  /** Freeing what did not exist before brings back the uses of before. */
  lemma FreedIsBefore(ts0: Tables, use0: seq<Use>, pages0: seq<PageBytes>, ts1: Tables, use1: seq<Use>,
                      pages1: seq<PageBytes>, root: nat, p: Option<nat>)
    requires Others(ts0, use0, pages0, ts1, use1, pages1, root, p)
    requires forall f :: 0 <= f < |use0| ==> !Belongs(use0[f], root, p)
    ensures Freed(use1, root, p) == use0
  {
  }

  /** Without a root, there is no address space. */
  lemma NoSpace(ts: Tables, use: seq<Use>, root: nat)
    requires Wf(ts, use) && Back(ts, use) && !IsRoot(use, root)
    ensures forall f :: 0 <= f < |use| ==> !Belongs(use[f], root, None)
  {
  }

  /** uvmfree() frees the whole address space. */
  lemma UvmFreed(ts: Tables, use0: seq<Use>, root: nat, n: nat)
    requires Back(ts, use0) && Owns(ts, use0, root, n)
    ensures Torn(Released(use0, root, 0, n), root, Root) == Freed(use0, root, None)
  {
  }

  lemma FreedOthers(ts0: Tables, use0: seq<Use>, pages0: seq<PageBytes>, ts1: Tables, use1: seq<Use>,
                    pages1: seq<PageBytes>, root: nat)
    requires use1 == Freed(use0, root, None) && SamePages(use0, pages0, use1, pages1)
    requires forall q, w :: q != root && IsRoot(use0, q) && 0 <= w < MAXVPN ==> Leaf(ts1, q, w) == Leaf(ts0, q, w)
    ensures Others(ts0, use0, pages0, ts1, use1, pages1, root, None)
  {
  }

  /** uvmfree(), seen as a whole. */
  method FreeAll(m: Memory, root: nat, sz: nat)
    requires m.Valid() && Back(m.ts, m.use) && IsRoot(m.use, root) && Owns(m.ts, m.use, root, RoundUp(sz))
    requires Leaf(m.ts, root, TRAMPOLINE) == ZERO && Leaf(m.ts, root, TRAPFRAME) == ZERO
    requires Leaf(m.ts, root, USYSCALL) == ZERO
    modifies m
    ensures m.Valid() && Back(m.ts, m.use) && m.use == Freed(old(m.use), root, None)
    ensures Others(old(m.ts), old(m.use), old(m.pages), m.ts, m.use, m.pages, root, None)
  {
    hide NodeOk, Anchored, FreeOk, Leaf, Back, Owns, Belongs;
    UvmFreed(m.ts, m.use, root, RoundUp(sz));
    ghost var ts0, use0, pages0 := m.ts, m.use, m.pages;
    m.UvmFree(root, sz);
    FreedOthers(ts0, use0, pages0, m.ts, m.use, m.pages, root);
  }

  lemma NothingReleased(ts: Tables, use: seq<Use>, root: nat, v: nat)
    requires Back(ts, use) && v >= USERTOP
    ensures Released(use, root, v, v + 1) == use
  {
  }

  lemma OwnsBelow(ts0: Tables, ts1: Tables, use: seq<Use>, root: nat, n: nat, v: nat)
    requires Owns(ts0, use, root, n) && OnlyPages(ts0, use, ts1, root, v, v + 1) && IsRoot(use, root) && v >= USERTOP
    ensures Owns(ts1, use, root, n)
  {
    hide Leaf;
    forall w | 0 <= w < n
      ensures OwnPage(ts1, use, root, w)
    {
      assert OwnPage(ts0, use, root, w);
    }
  }

  /** uvmunmap() of one of the three fixed pages. */
  method UnmapFixed(m: Memory, root: nat, v: nat, ghost n: nat)
    requires m.Valid() && Back(m.ts, m.use) && IsRoot(m.use, root) && USERTOP <= v < MAXVPN && Leaf(m.ts, root, v).v
    requires Owns(m.ts, m.use, root, n)
    modifies m
    ensures m.Valid() && Back(m.ts, m.use) && m.use == old(m.use) && Owns(m.ts, m.use, root, n)
    ensures Leaf(m.ts, root, v) == ZERO
    ensures forall w :: 0 <= w < MAXVPN && w != v ==> Leaf(m.ts, root, w) == old(Leaf(m.ts, root, w))
    ensures Others(old(m.ts), old(m.use), old(m.pages), m.ts, m.use, m.pages, root, None)
  {
    hide NodeOk, Anchored, FreeOk, Leaf, Back, Owns, Belongs;
    ghost var ts0, use0, pages0 := m.ts, m.use, m.pages;
    NothingReleased(m.ts, m.use, root, v);
    m.UvmUnmap(root, v, 1, false);
    ReleasedOthers(ts0, use0, pages0, m.ts, m.use, m.pages, root, v, v + 1);
    OwnsBelow(ts0, m.ts, m.use, root, n, v);
  }

  /** proc_freepagetable(): all frames of the address space become free, and nothing else changes. */
  method ProcFreePagetable(m: Memory, root: nat, sz: nat, ghost trampoline: nat, ghost tf: nat, ghost us: nat)
    requires m.Valid() && Back(m.ts, m.use) && IsRoot(m.use, root) && Owns(m.ts, m.use, root, RoundUp(sz))
    requires Fixed(m.ts, root, trampoline, tf, us)
    modifies m
    ensures m.Valid() && Back(m.ts, m.use) && m.use == Freed(old(m.use), root, None)
    ensures Others(old(m.ts), old(m.use), old(m.pages), m.ts, m.use, m.pages, root, None)
  {
    hide NodeOk, Anchored, FreeOk, Leaf, Back, Owns, Belongs, Others;
    ghost var ts0, use0, pages0 := m.ts, m.use, m.pages;
    UnmapFixed(m, root, TRAMPOLINE, RoundUp(sz));
    ghost var ts1, pages1 := m.ts, m.pages;
    UnmapFixed(m, root, TRAPFRAME, RoundUp(sz));
    OthersTwice(ts0, use0, pages0, ts1, use0, pages1, m.ts, m.use, m.pages, root, None);
    ghost var ts2, pages2 := m.ts, m.pages;
    UnmapFixed(m, root, USYSCALL, RoundUp(sz));
    OthersTwice(ts0, use0, pages0, ts2, use0, pages2, m.ts, m.use, m.pages, root, None);
    ghost var ts3, pages3 := m.ts, m.pages;
    FreeAll(m, root, sz);
    OthersTwice(ts0, use0, pages0, ts3, use0, pages3, m.ts, m.use, m.pages, root, None);
  }

  lemma OwnsGrown(ts0: Tables, use0: seq<Use>, pages0: seq<PageBytes>, ts1: Tables, use1: seq<Use>,
                  pages1: seq<PageBytes>, root: nat, n: nat, v: nat)
    requires Owns(ts0, use0, root, n) && Back(ts0, use0) && IsRoot(use0, root) && v >= USERTOP
    requires NewTables(use0, pages0, use1, pages1, root) && OnlyPages(ts0, use0, ts1, root, v, v + 1)
    ensures Owns(ts1, use1, root, n) && Back(ts1, use1)
  {
    hide Leaf;
    forall w | 0 <= w < n
      ensures OwnPage(ts1, use1, root, w)
    {
      assert OwnPage(ts0, use0, root, w);
    }
    forall f | 0 <= f < |use1| && use1[f].Page?
      ensures MappedAt(ts1, use1, f)
    {
      assert MappedAt(ts0, use0, f);
    }
  }

  /** mappages() of one of the three fixed pages. */
  method MapFixed(m: Memory, root: nat, v: nat, ppn: nat, perm: Perm, ghost n: nat) returns (ok: bool)
    requires m.Valid() && Back(m.ts, m.use) && IsRoot(m.use, root) && USERTOP <= v < MAXVPN
    requires Leaf(m.ts, root, v) == ZERO
    requires Owns(m.ts, m.use, root, n) && perm.Leaf()
    modifies m
    ensures m.Valid() && Back(m.ts, m.use) && IsRoot(m.use, root) && Owns(m.ts, m.use, root, n)
    ensures Leaf(m.ts, root, v) == if ok then Pte(ppn, true, perm) else ZERO
    ensures forall w :: 0 <= w < MAXVPN && w != v ==> Leaf(m.ts, root, w) == old(Leaf(m.ts, root, w))
    ensures Others(old(m.ts), old(m.use), old(m.pages), m.ts, m.use, m.pages, root, None)
    ensures ok <==> |old(m.free)| >= Missing(old(m.ts), root, v)
    ensures ok ==> |m.free| == |old(m.free)| - Missing(old(m.ts), root, v) && Made(old(m.ts), m.ts, root, v, v + 1)
  {
    hide NodeOk, Anchored, FreeOk, Leaf, Back, Owns, Belongs, Missing, Made, TablesFor;
    ghost var ts0, use0, pages0 := m.ts, m.use, m.pages;
    OnePageOnly(m.ts, root, v);
    OnePage(v);
    ghost var done;
    ok, done := m.MapPages(root, v * PGSIZE, PGSIZE, ppn, perm);
    TablesOthers(ts0, use0, pages0, m.ts, m.use, m.pages, root, v);
    OwnsGrown(ts0, use0, pages0, m.ts, m.use, m.pages, root, n, v);
  }

  lemma CreatedOthers(ts0: Tables, use0: seq<Use>, pages0: seq<PageBytes>, ts1: Tables, use1: seq<Use>,
                      pages1: seq<PageBytes>, r: nat)
    requires r < |use0| == |pages0| && use0[r].Free? && use1 == use0[r := Table(r, Root)]
    requires pages1 == pages0[r := Filled(5)]
    requires forall q, w :: IsRoot(use0, q) && 0 <= w < MAXVPN ==> Leaf(ts1, q, w) == Leaf(ts0, q, w)
    requires forall w :: 0 <= w < MAXVPN ==> Leaf(ts1, r, w) == ZERO
    ensures Others(ts0, use0, pages0, ts1, use1, pages1, r, None) && Owns(ts1, use1, r, 0)
  {
  }

  /** proc_pagetable(): an address space with no user memory and the three fixed pages. It takes three
      frames; if there are fewer, all that was allocated is free again. */
  method ProcPagetable(m: Memory, trampoline: nat, tf: nat, us: nat) returns (r: Option<nat>)
    requires m.Valid() && Back(m.ts, m.use)
    modifies m
    ensures m.Valid() && Back(m.ts, m.use)
    ensures r.Some? ==>
              && r.value < |old(m.use)| && old(m.use)[r.value].Free? && IsRoot(m.use, r.value)
              && Owns(m.ts, m.use, r.value, 0) && Fixed(m.ts, r.value, trampoline, tf, us)
              && Others(old(m.ts), old(m.use), old(m.pages), m.ts, m.use, m.pages, r.value, None)
    ensures r.None? <==> |old(m.free)| < 3
    ensures r.Some? ==> |m.free| == |old(m.free)| - 3 && TreeFor(m.ts, r.value, 0)
    ensures r.None? ==> m.use == old(m.use)
    ensures r.None? ==> forall root :: !IsRoot(m.use, root) ==>
                          Others(old(m.ts), old(m.use), old(m.pages), m.ts, m.use, m.pages, root, None)
  {
    hide NodeOk, Anchored, FreeOk, Leaf, Back, Owns, Belongs, Others, MidAt, Made, TablesFor, TreeFor;
    ghost var ts0, use0, pages0 := m.ts, m.use, m.pages;
    FirstFree(m.free, m.use);
    r := m.UvmCreate();
    if r.None? {
      forall root | !IsRoot(m.use, root)
        ensures Others(ts0, use0, pages0, m.ts, m.use, m.pages, root, None)
      {
        OthersSame(m.ts, m.use, m.pages, root, None);
      }
      return;
    }
    var root := r.value;
    CreatedOthers(ts0, use0, pages0, m.ts, m.use, m.pages, root);
    ghost var tsA := m.ts;
    FixedFresh(tsA, root);
    var ok := MapThree(m, root, trampoline, tf, us, ts0, use0, pages0);
    if !ok {
      ghost var ts1, use1, pages1 := m.ts, m.use, m.pages;
      NoSpace(ts0, use0, root);
      FreedIsBefore(ts0, use0, pages0, ts1, use1, pages1, root, None);
      FreeAll(m, root, 0);
      OthersTwice(ts0, use0, pages0, ts1, use1, pages1, m.ts, m.use, m.pages, root, None);
      forall q | !IsRoot(m.use, q)
        ensures Others(ts0, use0, pages0, m.ts, m.use, m.pages, q, None)
      {
        OthersAny(ts0, use0, pages0, m.ts, m.pages, root, q);
      }
      return None;
    }
    FixedTree(tsA, m.ts, root);
  }

  /** If uses did not change, the relation does not depend on whose frames were touched meanwhile. */
  lemma OthersAny(ts0: Tables, use: seq<Use>, pages0: seq<PageBytes>, ts1: Tables, pages1: seq<PageBytes>, root: nat,
                  q: nat)
    requires Others(ts0, use, pages0, ts1, use, pages1, root, None) && Wf(ts0, use) && Back(ts0, use)
    requires !IsRoot(use, root)
    ensures Others(ts0, use, pages0, ts1, use, pages1, q, None)
  {
  }

  lemma FixedNo()
    ensures MidNo(USYSCALL) == MidNo(TRAPFRAME) == MidNo(TRAMPOLINE)
    ensures LowNo(USYSCALL) == LowNo(TRAPFRAME) == LowNo(TRAMPOLINE)
  {
  }

  /** The three fixed pages share their tables, so whichever comes first pays for them. */
  lemma FixedNeed(ts: Tables, root: nat)
    ensures TablesFor(ts, root, USYSCALL, MAXVPN) == Missing(ts, root, USYSCALL) == Missing(ts, root,
                TRAPFRAME) == Missing(ts, root, TRAMPOLINE)
  {
    hide MidNo, LowNo;
    FixedNo();
    PxNo(USYSCALL, TRAPFRAME);
    PxNo(USYSCALL, TRAMPOLINE);
    assert TablesFor(ts, root, USYSCALL, USYSCALL) == 0;
    assert TablesFor(ts, root, USYSCALL, TRAPFRAME) == Missing(ts, root, USYSCALL);
    assert TablesFor(ts, root, USYSCALL, TRAMPOLINE) == Missing(ts, root, USYSCALL);
  }

  lemma FixedFirst(tsA: Tables, root: nat)
    ensures Missing(tsA, root, TRAMPOLINE) <= TablesFor(tsA, root, USYSCALL, MAXVPN)
  {
    FixedNeed(tsA, root);
  }

  lemma FixedSecond(tsA: Tables, tsB: Tables, root: nat)
    requires Made(tsA, tsB, root, TRAMPOLINE, TRAMPOLINE + 1)
    ensures Missing(tsA, root, TRAMPOLINE) + Missing(tsB, root, TRAPFRAME) <= TablesFor(tsA, root, USYSCALL, MAXVPN)
  {
    hide MidNo, LowNo, TablesFor, MidAt, LowAt;
    FixedNo();
    FixedNeed(tsA, root);
  }

  lemma FixedThird(tsA: Tables, tsB: Tables, tsC: Tables, root: nat)
    requires Made(tsA, tsB, root, TRAMPOLINE, TRAMPOLINE + 1) && Made(tsB, tsC, root, TRAPFRAME, TRAPFRAME + 1)
    ensures Missing(tsA, root, TRAMPOLINE) + Missing(tsB, root, TRAPFRAME) + Missing(tsC, root, USYSCALL)
            == TablesFor(tsA, root, USYSCALL, MAXVPN)
  {
    hide MidNo, LowNo, TablesFor, MidAt, LowAt;
    FixedNo();
    FixedNeed(tsA, root);
  }

  lemma FixedMade(tsA: Tables, tsB: Tables, tsC: Tables, tsD: Tables, root: nat)
    requires Made(tsA, tsB, root, TRAMPOLINE, TRAMPOLINE + 1) && Made(tsB, tsC, root, TRAPFRAME, TRAPFRAME + 1)
    requires Made(tsC, tsD, root, USYSCALL, USYSCALL + 1)
    ensures Made(tsA, tsD, root, USYSCALL, MAXVPN)
  {
  }

  /** An address space that was built from nothing has the two tables of the fixed pages, and no others. */
  lemma FixedTree(ts0: Tables, ts1: Tables, root: nat)
    requires forall w :: 0 <= w < MAXVPN ==> !MidAt(ts0, root, w)
    requires Made(ts0, ts1, root, USYSCALL, MAXVPN)
    ensures TreeFor(ts1, root, 0)
  {
    hide MidNo, LowNo, Px;
    FixedNo();
    forall w | 0 <= w < MAXVPN
      ensures MidAt(ts1, root, w) <==> MidNo(w) == MidNo(MAXVPN - 1)
      ensures LowAt(ts1, root, w) <==> LowNo(w) == LowNo(MAXVPN - 1)
    {
      assert !MidAt(ts0, root, w) && !LowAt(ts0, root, w);
    }
  }

  lemma FixedFresh(ts: Tables, root: nat)
    requires forall w :: 0 <= w < MAXVPN ==> !MidAt(ts, root, w)
    ensures TablesFor(ts, root, USYSCALL, MAXVPN) == 2
  {
    FixedNeed(ts, root);
  }

  /** The mappings of proc_pagetable(), undone when one fails. */
  method MapThree(m: Memory, root: nat, trampoline: nat, tf: nat, us: nat,
                  ghost ts0: Tables, ghost use0: seq<Use>, ghost pages0: seq<PageBytes>) returns (ok: bool)
    requires m.Valid() && Back(m.ts, m.use) && IsRoot(m.use, root) && Owns(m.ts, m.use, root, 0)
    requires forall w :: 0 <= w < MAXVPN ==> Leaf(m.ts, root, w) == ZERO
    requires Others(ts0, use0, pages0, m.ts, m.use, m.pages, root, None)
    modifies m
    ensures m.Valid() && Back(m.ts, m.use) && IsRoot(m.use, root) && Owns(m.ts, m.use, root, 0)
    ensures Others(ts0, use0, pages0, m.ts, m.use, m.pages, root, None)
    ensures ok ==> Fixed(m.ts, root, trampoline, tf, us)
    ensures !ok ==>
              && Leaf(m.ts, root, TRAMPOLINE) == ZERO
              && Leaf(m.ts, root, TRAPFRAME) == ZERO
              && Leaf(m.ts, root, USYSCALL) == ZERO
    ensures ok <==> |old(m.free)| >= TablesFor(old(m.ts), root, USYSCALL, MAXVPN)
    ensures ok ==> |m.free| == |old(m.free)| - TablesFor(old(m.ts), root, USYSCALL, MAXVPN)
    ensures ok ==> Made(old(m.ts), m.ts, root, USYSCALL, MAXVPN)
  {
    hide NodeOk, Anchored, FreeOk, Leaf, Back, Owns, Belongs, Others, Missing, Made, TablesFor;
    ghost var tsA := m.ts;
    FixedFirst(tsA, root);
    ghost var ts1, use1, pages1 := m.ts, m.use, m.pages;
    ok := MapFixed(m, root, TRAMPOLINE, trampoline, READ_EXEC, 0);
    OthersTwice(ts0, use0, pages0, ts1, use1, pages1, m.ts, m.use, m.pages, root, None);
    if !ok {
      return;
    }
    ghost var tsB := m.ts;
    FixedSecond(tsA, tsB, root);
    ts1, use1, pages1 := m.ts, m.use, m.pages;
    ok := MapFixed(m, root, TRAPFRAME, tf, READ_WRITE, 0);
    OthersTwice(ts0, use0, pages0, ts1, use1, pages1, m.ts, m.use, m.pages, root, None);
    if !ok {
      ts1, use1, pages1 := m.ts, m.use, m.pages;
      UnmapFixed(m, root, TRAMPOLINE, 0);
      OthersTwice(ts0, use0, pages0, ts1, use1, pages1, m.ts, m.use, m.pages, root, None);
      return;
    }
    ghost var tsC := m.ts;
    FixedThird(tsA, tsB, tsC, root);
    ts1, use1, pages1 := m.ts, m.use, m.pages;
    ok := MapFixed(m, root, USYSCALL, us, USER_READ, 0);
    OthersTwice(ts0, use0, pages0, ts1, use1, pages1, m.ts, m.use, m.pages, root, None);
    if !ok {
      ts1, use1, pages1 := m.ts, m.use, m.pages;
      UnmapFixed(m, root, TRAMPOLINE, 0);
      OthersTwice(ts0, use0, pages0, ts1, use1, pages1, m.ts, m.use, m.pages, root, None);
      ts1, use1, pages1 := m.ts, m.use, m.pages;
      UnmapFixed(m, root, TRAPFRAME, 0);
      OthersTwice(ts0, use0, pages0, ts1, use1, pages1, m.ts, m.use, m.pages, root, None);
      return;
    }
    FixedMade(tsA, tsB, tsC, m.ts, root);
  }
}
