/** Operations on the process table (kernel/proc.c). */
module Process {
  import opened Common
  import opened Sv39
  import opened PageTable
  import opened FrameCount
  import opened VirtualMemory
  import opened AddressSpace
  import opened UserCopy
  import opened ProcMemory
  import PageAccess

  class ProcTable {
    const m: Memory
    /** The frame of the trampoline code. */
    const trampoline: nat
    var procs: seq<Proc>
    var nextpid: nat
    /** Whose address space each root is. */
    ghost var owner: seq<nat>

    ghost predicate Valid()
      reads this, m
    {
      && m.Valid() && Back(m.ts, m.use) && |m.use| <= NFRAMES
      && Inv(m.ts, m.use, procs, owner, trampoline)
    }

    /** procinit(): no process yet, so no frame is part of an address space. */
    constructor (m: Memory, trampoline: nat)
      requires m.Valid() && |m.use| <= NFRAMES && forall f :: 0 <= f < |m.use| ==> m.use[f].Free? || m.use[f].Kernel?
      ensures Valid() && this.m == m && this.trampoline == trampoline && nextpid == 1
      ensures procs == seq(NPROC, (i: nat) => BLANK)
    {
      this.m := m;
      this.trampoline := trampoline;
      procs := seq(NPROC, (i: nat) => BLANK);
      nextpid := 1;
      owner := seq(|m.use|, (i: nat) => 0);
    }

    /** freeproc(): all frames of the process become free, and no other frame changes. The slot may be
        half built. */
    method FreeProc(p: nat)
      requires Valid() && p < |procs|
      modifies this`procs, m
      ensures Valid() && |m.use| == old(|m.use|) && procs == old(procs)[p := BLANK]
      ensures m.use == Freed(old(m.use), RootOf(old(procs)[p], |m.use|), Some(p))
      ensures Others(old(m.ts), old(m.use), old(m.pages), m.ts, m.use, m.pages, RootOf(old(procs)[p], |m.use|), Some(p))
      ensures forall q :: 0 <= q < |procs| && q != p ==>
              (HoldsPid(m.pages, procs[q]) <==> old(HoldsPid(m.pages, procs[q])))
      ensures old(Pids(m.pages, procs)) ==> Pids(m.pages, procs)
    {
      hide NodeOk, Anchored, FreeOk, Leaf, Back, Owns, Others, Belongs, Inv, Fixed, Pids, HoldsPid;
      ghost var ts0, use0, pages0, procs0 := m.ts, m.use, m.pages, procs;
      ghost var root := RootOf(procs[p], |m.use|);
      SlotAt(m.ts, m.use, procs, owner, trampoline, p);
      FreeFrames(p, root, RoundUp(procs[p].sz));
      ghost var ts1, use1, pages1 := m.ts, m.use, m.pages;
      if procs[p].pagetable.Some? {
        ProcFreePagetable(m, procs[p].pagetable.value, procs[p].sz, trampoline, procs0[p].trapframe.value,
                          procs0[p].usyscall.value);
        OthersMore(ts1, use1, pages1, m.ts, m.use, m.pages, root, Some(p));
      } else {
        NoSpace(m.ts, m.use, root);
        NoneFreed(m.use, root);
        OthersSame(m.ts, m.use, m.pages, root, Some(p));
      }
      OthersTwice(ts0, use0, pages0, ts1, use1, pages1, m.ts, m.use, m.pages, root, Some(p));
      FreedBoth(ts0, use0, use1, procs0, owner, trampoline, p, root);
      procs := procs[p := BLANK];
      FreedInv(ts0, use0, pages0, procs0, owner, m.ts, m.use, m.pages, procs, trampoline, root, p);
    }

    /** Free the trapframe and the usyscall page. */
    method FreeFrames(p: nat, ghost root: nat, ghost n: nat)
      requires m.Valid() && Back(m.ts, m.use) && p < |procs|
      requires Holds(m.use, procs[p].trapframe, ProcPage(p, Trapframe))
      requires Holds(m.use, procs[p].usyscall, ProcPage(p, Usyscall))
      modifies this`procs, m
      ensures m.Valid() && Back(m.ts, m.use) && m.ts == old(m.ts) && |m.use| == old(|m.use|)
      ensures procs == old(procs)[p := old(procs)[p].(trapframe := None, usyscall := None)]
      ensures forall f :: 0 <= f < |m.use| ==>
                m.use[f] == if Some(f) == old(procs)[p].trapframe || Some(f) == old(procs)[p].usyscall then Free
                    else old(m.use)[f]
      ensures Others(old(m.ts), old(m.use), old(m.pages), m.ts, m.use, m.pages, root, Some(p))
      ensures old(IsRoot(m.use, root) && Owns(m.ts, m.use, root, n)) ==>
              IsRoot(m.use, root) && Owns(m.ts, m.use, root, n)
    {
      hide NodeOk, Anchored, FreeOk, Leaf, Back, Owns, Others;
      ghost var ts0, use0, pages0 := m.ts, m.use, m.pages;
      OthersSame(m.ts, m.use, m.pages, root, Some(p));
      if procs[p].trapframe.Some? {
        FreeFor(m, procs[p].trapframe.value);
        OneFrame(ts0, use0, pages0, m.use, m.pages, procs[p].trapframe.value, root, p);
      }
      procs := procs[p := procs[p].(trapframe := None)];
      ghost var use1, pages1 := m.use, m.pages;
      if procs[p].usyscall.Some? {
        FreeFor(m, procs[p].usyscall.value);
        OneFrame(ts0, use1, pages1, m.use, m.pages, procs[p].usyscall.value, root, p);
        OthersTwice(ts0, use0, pages0, ts0, use1, pages1, m.ts, m.use, m.pages, root, Some(p));
      }
      procs := procs[p := procs[p].(usyscall := None)];
      OwnsUse(m.ts, use0, m.use, root, n);
    }

    /** kalloc() of the trapframe or of the usyscall page for a slot under construction. */
    method GiveFrame(p: nat, kind: Kind) returns (f: Option<nat>)
      requires Valid() && p < |procs| && procs[p].state.USED? && procs[p].pagetable == None
      requires (if kind.Trapframe? then procs[p].trapframe else procs[p].usyscall) == None
      modifies this`procs, m
      ensures Valid() && |m.use| == old(|m.use|)
      ensures f.None? <==> |old(m.free)| < 1
      ensures f.Some? ==> |m.free| == |old(m.free)| - 1
      ensures f.None? ==> procs == old(procs)
      ensures f.Some? ==> f.value < |m.use|
      ensures f.Some? ==>
                procs == old(procs)[p := if kind.Trapframe? then old(procs)[p].(trapframe := f)
                                         else old(procs)[p].(usyscall := f)]
      ensures forall root: nat :: Others(old(m.ts), old(m.use), old(m.pages), m.ts, m.use, m.pages, root, Some(p))
      ensures old(Pids(m.pages, procs)) ==> Pids(m.pages, procs)
    {
      hide NodeOk, Anchored, FreeOk, Leaf, Back, Others, Belongs, Inv, Pids;
      ghost var use0, pages0, procs0 := m.use, m.pages, procs;
      f := AllocFor(m, ProcPage(p, kind));
      if f.None? {
        forall root: nat
          ensures Others(m.ts, use0, pages0, m.ts, m.use, m.pages, root, Some(p))
        {
          OthersSame(m.ts, use0, pages0, root, Some(p));
        }
        return;
      }
      if kind.Trapframe? {
        procs := procs[p := procs[p].(trapframe := f)];
      } else {
        procs := procs[p := procs[p].(usyscall := f)];
      }
      FrameGiven(m.ts, use0, pages0, procs0, owner, m.use, m.pages, procs, trampoline, p, kind, f.value);
    }

    /** allocproc(): the first unused slot gets the next pid, a trapframe, a usyscall page with the pid,
        and an address space without user memory, five frames in all. Without a slot or without the frames,
        nothing is kept but the pid is used up. */
    method AllocProc() returns (r: Option<nat>)
      requires Valid()
      modifies this, m
      ensures Valid()
      ensures r.None? <==> NoSlot(old(procs)) || |old(m.free)| < 5
      ensures r.None? ==> procs == old(procs) && Unaffected(old(m.ts), old(m.use), old(m.pages), m.ts, m.use, m.pages)
      ensures r.Some? ==>
                && r.value < |procs| == |old(procs)| && old(procs)[r.value] == BLANK
                && (forall q :: 0 <= q < r.value ==> !procs[q].state.UNUSED?)
                && procs == old(procs)[r.value := procs[r.value]] && NewProc(procs[r.value], old(nextpid))
                && !IsRoot(old(m.use), procs[r.value].pagetable.value)
                && Others(old(m.ts), old(m.use), old(m.pages), m.ts, m.use, m.pages, procs[r.value].pagetable.value, r)
                && HoldsPid(m.pages, procs[r.value])
                && |m.free| == |old(m.free)| - 5 && TreeFor(m.ts, procs[r.value].pagetable.value, 0)
      ensures nextpid == if NoSlot(old(procs)) then old(nextpid) else old(nextpid) + 1
      ensures old(Pids(m.pages, procs)) ==> Pids(m.pages, procs)
    {
      hide NodeOk, Anchored, FreeOk, Leaf, Back, Others, Belongs, Inv, Pids, Unaffected, TreeFor;
      UnaffectedNot(m.ts, m.use, m.pages);
      var p := 0;
      while p < |procs| && !procs[p].state.UNUSED?
        invariant 0 <= p <= |procs| && forall q :: 0 <= q < p ==> !procs[q].state.UNUSED?
      {
        p := p + 1;
      }
      if p == |procs| {
        return None;
      }
      ghost var ts0, use0, pages0, procs0 := m.ts, m.use, m.pages, procs;
      ghost var none := |m.use|;
      SlotAt(m.ts, m.use, procs, owner, trampoline, p);
      NothingYet(m.ts, m.use, procs, owner, trampoline, none, p);
      procs := procs[p := procs[p].(pid := nextpid, state := USED)];
      nextpid := nextpid + 1;
      Relabelled(m.ts, m.use, m.pages, procs0, owner, procs, trampoline, p, procs[p]);
      var ok := Build(p);
      if !ok {
        ghost var ts1, use1, pages1 := m.ts, m.use, m.pages;
        FreeProc(p);
        Undone(ts0, use0, pages0, ts1, use1, pages1, m.ts, m.use, m.pages, none, Some(p));
        assert procs == procs0;
        return None;
      }
      r := Some(p);
    }

    /** The allocations of allocproc(). */
    method Build(p: nat) returns (ok: bool)
      requires Valid() && p < |procs| && procs[p] == BLANK.(state := USED, pid := procs[p].pid)
      modifies this`procs, this`owner, m
      ensures Valid() && |m.use| == old(|m.use|) && |procs| == |old(procs)| && procs == old(procs)[p := procs[p]]
      ensures !ok ==>
                && procs[p].pagetable == None
                && Others(old(m.ts), old(m.use), old(m.pages), m.ts, m.use, m.pages, old(|m.use|), Some(p))
      ensures ok ==> NewProc(procs[p], old(procs)[p].pid) && !IsRoot(old(m.use), procs[p].pagetable.value)
      ensures ok ==> Others(old(m.ts), old(m.use), old(m.pages), m.ts, m.use, m.pages, procs[p].pagetable.value,
                            Some(p))
      ensures ok ==> HoldsPid(m.pages, procs[p])
      ensures ok <==> |old(m.free)| >= 5
      ensures ok ==> |m.free| == |old(m.free)| - 5 && TreeFor(m.ts, procs[p].pagetable.value, 0)
      ensures old(Pids(m.pages, procs)) ==> Pids(m.pages, procs)
    {
      hide NodeOk, Anchored, FreeOk, Leaf, Back, Others, Belongs, Inv, Pids, PidBytes, TreeFor;
      ghost var ts0, use0, pages0 := m.ts, m.use, m.pages;
      var tf := GiveFrame(p, Trapframe);
      if tf.None? {
        return false;
      }
      ghost var ts1, use1, pages1 := m.ts, m.use, m.pages;
      var us := GiveFrame(p, Usyscall);
      ghost var ts2, use2, pages2 := m.ts, m.use, m.pages;
      forall root: nat
        ensures Others(ts0, use0, pages0, ts2, use2, pages2, root, Some(p))
      {
        OthersTwice(ts0, use0, pages0, ts1, use1, pages1, ts2, use2, pages2, root, Some(p));
      }
      if us.None? {
        return false;
      }
      m.pages := m.pages[us.value := Patch(m.pages[us.value], 0, PidBytes(procs[p].pid))];
      PidWritten(m.ts, m.use, pages2, procs, owner, m.pages, trampoline, p);
      ghost var pages3 := m.pages;
      forall root: nat
        ensures Others(ts0, use0, pages0, ts2, use2, pages3, root, Some(p))
      {
        OthersTwice(ts0, use0, pages0, ts2, use2, pages2, ts2, use2, pages3, root, Some(p));
      }
      ok := GiveSpace(p);
      ghost var root := if ok then procs[p].pagetable.value else |use0|;
      OthersTwice(ts0, use0, pages0, ts2, use2, pages3, m.ts, m.use, m.pages, root, Some(p));
      if ok {
        StillFree(ts0, use0, pages0, ts2, use2, pages3, root, |use0|, p);
      }
    }

    /** proc_pagetable() for a slot that has its frames. */
    method GiveSpace(p: nat) returns (ok: bool)
      requires Valid() && p < |procs| && procs[p].pagetable == None && procs[p].state.USED? && procs[p].sz == 0
      requires procs[p].trapframe.Some? && procs[p].usyscall.Some?
      requires forall root: nat :: HoldsPid(m.pages, procs[p].(pagetable := Some(root)))
      modifies this`procs, this`owner, m
      ensures Valid() && |procs| == |old(procs)| && |m.use| == old(|m.use|)
      ensures !ok ==>
                && procs == old(procs)
                && Others(old(m.ts), old(m.use), old(m.pages), m.ts, m.use, m.pages, |m.use|, Some(p))
      ensures ok ==>
                procs[p].pagetable.Some? && procs == old(procs)[p := old(procs)[p].(pagetable := procs[p].pagetable)]
      ensures ok ==> procs[p].pagetable.value < |m.use| && old(m.use)[procs[p].pagetable.value].Free?
      ensures ok ==> Others(old(m.ts), old(m.use), old(m.pages), m.ts, m.use, m.pages, procs[p].pagetable.value,
                            Some(p))
      ensures ok ==> HoldsPid(m.pages, procs[p])
      ensures ok <==> |old(m.free)| >= 3
      ensures ok ==> |m.free| == |old(m.free)| - 3 && TreeFor(m.ts, procs[p].pagetable.value, 0)
      ensures old(Pids(m.pages, procs)) ==> Pids(m.pages, procs)
    {
      hide NodeOk, Anchored, FreeOk, Leaf, Back, Others, Belongs, Inv, Pids, PidBytes, Owns, Fixed, TreeFor;
      ghost var ts0, use0, pages0, procs0, owner0 := m.ts, m.use, m.pages, procs, owner;
      SlotAt(m.ts, m.use, procs, owner, trampoline, p);
      var r := ProcPagetable(m, trampoline, procs[p].trapframe.value, procs[p].usyscall.value);
      if r.None? {
        OthersMore(ts0, use0, pages0, m.ts, m.use, m.pages, |use0|, Some(p));
        SameSizes(ts0, use0, pages0, m.ts, m.use, m.pages, |use0|, Some(p));
        NoSpace(ts0, use0, |use0|);
        SameUse(ts0, use0, pages0, m.ts, m.pages, |use0|);
        UnaffectedInv(ts0, use0, pages0, m.ts, m.use, m.pages, procs, owner, trampoline);
        return false;
      }
      procs := procs[p := procs[p].(pagetable := r)];
      owner := owner[r.value := p];
      OthersMore(ts0, use0, pages0, m.ts, m.use, m.pages, r.value, Some(p));
      SameSizes(ts0, use0, pages0, m.ts, m.use, m.pages, r.value, Some(p));
      SpaceGiven(ts0, use0, pages0, procs0, owner0, m.ts, m.use, m.pages, procs, owner, trampoline, r.value, p);
      ok := true;
    }

    /** userinit(): the first process, in the first unused slot, has one page with the given program and starts
        at its beginning. The kernel counts on eight free frames here. */
    method UserInit(code: seq<Byte>) returns (p: nat)
      requires Valid() && |code| < PGSIZE && !NoSlot(procs) && |m.free| >= 8
      modifies this, m
      ensures p < |procs| == |old(procs)| && old(procs)[p] == BLANK && procs == old(procs)[p := procs[p]]
      ensures Valid() && nextpid == old(nextpid) + 1
      ensures procs[p].state.RUNNABLE? && procs[p].pid == old(nextpid) && procs[p].parent == None
      ensures procs[p].sz == PGSIZE
      ensures procs[p].pagetable.Some? && procs[p].trapframe.Some? && procs[p].trapframe.value < |m.pages|
      ensures HasContents(m.ts, m.pages, procs[p].pagetable.value, 0, FirstPage(code), USER_ALL)
      ensures FirstStarts(m.pages[procs[p].trapframe.value])
      ensures Others(old(m.ts), old(m.use), old(m.pages), m.ts, m.use, m.pages, procs[p].pagetable.value, Some(p))
      ensures old(Pids(m.pages, procs)) ==> Pids(m.pages, procs)
    {
      hide NodeOk, Anchored, FreeOk, Leaf, Back, Others, Belongs, Inv, Pids, Unaffected, Owns, SpaceOk, TreeFor;
      hide HoldsPid;
      hide FirstPage, FirstStarts, HasContents;
      ghost var ts0, use0, pages0 := m.ts, m.use, m.pages;
      var c := AllocProc();
      p := c.value;
      ghost var ts1, use1, pages1 := m.ts, m.use, m.pages;
      ghost var root := procs[p].pagetable.value;
      UvmFirst(p, code);
      OthersMore(ts1, use1, pages1, m.ts, m.use, m.pages, root, Some(p));
      OthersTwice(ts0, use0, pages0, ts1, use1, pages1, m.ts, m.use, m.pages, root, Some(p));
      ghost var ts2, use2, pages2 := m.ts, m.use, m.pages;
      FirstLaunch(p, code);
      OthersTwice(ts0, use0, pages0, ts2, use2, pages2, m.ts, m.use, m.pages, root, Some(p));
    }

    /** uvmfirst() for a new process. */
    method UvmFirst(p: nat, code: seq<Byte>)
      requires Valid() && p < |procs| && NewProc(procs[p], procs[p].pid) && |code| < PGSIZE
      requires |m.free| >= 3 && TreeFor(m.ts, procs[p].pagetable.value, 0)
      modifies this`procs, m
      ensures Valid() && |m.use| == old(|m.use|) && procs == old(procs)[p := old(procs)[p].(sz := PGSIZE)]
      ensures HasContents(m.ts, m.pages, procs[p].pagetable.value, 0, FirstPage(code), USER_ALL)
      ensures Others(old(m.ts), old(m.use), old(m.pages), m.ts, m.use, m.pages, procs[p].pagetable.value, None)
      ensures old(Pids(m.pages, procs)) ==> Pids(m.pages, procs)
    {
      hide NodeOk, Anchored, FreeOk, Leaf, Back, Others, Inv, Pids, Owns, Gained, OnlyPages, RoundUp, HasContents;
      hide FirstPage, Missing, TreeFor;
      ghost var ts0, use0, pages0, procs0 := m.ts, m.use, m.pages, procs;
      SlotAt(m.ts, m.use, procs, owner, trampoline, p);
      RoundUpExact(0);
      RoundUpExact(1);
      var root := procs[p].pagetable.value;
      FirstNeeds(m.ts, root);
      var ok := m.AddPage(root, 0, FirstPage(code), USER_ALL);
      GainedOthers(ts0, use0, pages0, m.ts, m.use, m.pages, root, 0, 1);
      SameSizes(ts0, use0, pages0, m.ts, m.use, m.pages, root, None);
      FixedKept(ts0, use0, m.ts, root, 0, 1);
      procs := procs[p := procs[p].(sz := PGSIZE)];
      Resized(ts0, use0, pages0, procs0, owner, m.ts, m.use, m.pages, procs, trampoline, root, p, PGSIZE);
    }

    /** The rest of userinit(): registers and state. */
    method FirstLaunch(p: nat, ghost code: seq<Byte>)
      requires Valid() && p < |procs| && procs[p].pagetable.Some? && procs[p].state.USED? && procs[p].sz == PGSIZE
      requires |code| < PGSIZE
      requires HasContents(m.ts, m.pages, procs[p].pagetable.value, 0, FirstPage(code), USER_ALL)
      modifies this`procs, m`pages
      ensures Valid() && |m.pages| == old(|m.pages|) && procs == old(procs)[p := old(procs)[p].(state := RUNNABLE)]
      ensures procs[p].trapframe.Some? && procs[p].trapframe.value < |m.pages|
      ensures FirstStarts(m.pages[procs[p].trapframe.value])
      ensures HasContents(m.ts, m.pages, procs[p].pagetable.value, 0, FirstPage(code), USER_ALL)
      ensures Others(m.ts, m.use, old(m.pages), m.ts, m.use, m.pages, procs[p].pagetable.value, Some(p))
      ensures old(Pids(m.pages, procs)) ==> Pids(m.pages, procs)
    {
      hide NodeOk, Anchored, FreeOk, Leaf, Back, Others, Inv, FirstFrame, FirstStarts, FirstPage, PidBytes;
      ghost var pages0, procs0 := m.pages, procs;
      SlotAt(m.ts, m.use, procs, owner, trampoline, p);
      var tf := procs[p].trapframe.value;
      FrameFirst(m.pages[tf]);
      m.pages := m.pages[tf := FirstFrame(m.pages[tf])];
      FrameStored(m.ts, m.use, pages0, procs, owner, m.pages, trampoline, p, procs[p].pagetable.value);
      FirstOwned(m.ts, m.use, procs[p].pagetable.value);
      procs := procs[p := procs[p].(state := RUNNABLE)];
      Relabelled(m.ts, m.use, m.pages, procs0, owner, procs, trampoline, p, procs[p]);
    }

    /** growproc(): user memory grows by n zeroed bytes or shrinks by -n; asking for less than nothing
        changes nothing. It fails if and only if there are too few free frames for the new pages and their
        missing tables, and then the process keeps what it had. */
    method GrowProc(p: nat, n: int) returns (r: int)
      requires Valid() && p < |procs| && procs[p].pagetable.Some? && -0x8000_0000 <= n < 0x8000_0000
      modifies this`procs, m
      ensures Valid() && (r == 0 || r == -1)
      ensures var pr := old(procs)[p];
              r == -1 <==>
                n > 0 && |old(m.free)| < FramesFor(old(m.ts), pr.pagetable.value, RoundUp(pr.sz), RoundUp(pr.sz + n))
      ensures var sz, root := old(procs)[p].sz, old(procs)[p].pagetable.value;
              var grown := if r == 0 && sz + n >= 0 then sz + n else sz;
              && procs == old(procs)[p := old(procs)[p].(sz := grown)]
              && Others(old(m.ts), old(m.use), old(m.pages), m.ts, m.use, m.pages, root, None)
              && (forall w :: 0 <= w < RoundUp(sz) && w < RoundUp(grown) ==>
                  PageKept(old(m.ts), old(m.pages), m.ts, m.pages, root, w))
              && (forall w :: RoundUp(sz) <= w < RoundUp(grown) ==>
                  HasContents(m.ts, m.pages, root, w, Filled(0), USER_WRITE))
      ensures old(Pids(m.pages, procs)) ==> Pids(m.pages, procs)
    {
      hide NodeOk, Anchored, FreeOk, Leaf, Back, Others, Inv, Pids, Owns, Gained, OnlyPages, RoundUp, FramesFor, Made;
      ghost var ts0, use0, pages0, procs0 := m.ts, m.use, m.pages, procs;
      SlotAt(m.ts, m.use, procs, owner, trampoline, p);
      var root, sz := procs[p].pagetable.value, procs[p].sz;
      SizeBound(m.ts, m.use, root, sz);
      if n > 0 {
        ghost var ok;
        RoundUpMonotone(sz, sz + n);
        sz, ok := m.UvmAlloc(root, sz, sz + n, USER_WRITE);
        ghost var lo, grown := RoundUp(procs[p].sz), if ok then procs[p].sz + n else procs[p].sz;
        GainedOthers(ts0, use0, pages0, m.ts, m.use, m.pages, root, lo, RoundUp(grown));
        GainedKeeps(ts0, use0, pages0, m.ts, m.use, m.pages, root, lo, RoundUp(grown));
        OwnsBounded(m.ts, m.use, root, RoundUp(grown));
        FixedKept(ts0, use0, m.ts, root, lo, RoundUp(grown));
        Resized(ts0, use0, pages0, procs0, owner, m.ts, m.use, m.pages, procs0[p := procs0[p].(sz := grown)],
                trampoline, root, p, grown);
        SameSizes(ts0, use0, pages0, m.ts, m.use, m.pages, root, None);
        if sz == 0 {
          assert procs0[p := procs0[p].(sz := procs0[p].sz)] == procs0;
          return -1;
        }
      } else if n < 0 {
        sz := m.UvmDealloc(root, sz, Added64(sz, n));
        RoundUpMonotone(sz, procs[p].sz);
        OwnsBounded(ts0, use0, root, RoundUp(procs[p].sz));
        ReleasedOthers(ts0, use0, pages0, m.ts, m.use, m.pages, root, RoundUp(sz), RoundUp(procs[p].sz));
        ReleasedKeeps(ts0, use0, pages0, m.ts, m.use, m.pages, root, RoundUp(sz), RoundUp(procs[p].sz));
        FixedKept(ts0, use0, m.ts, root, RoundUp(sz), RoundUp(procs[p].sz));
        Resized(ts0, use0, pages0, procs0, owner, m.ts, m.use, m.pages, procs0[p := procs0[p].(sz := sz)], trampoline,
                root, p, sz);
      } else {
        OthersSame(m.ts, m.use, m.pages, root, None);
        KeptAll(m.ts, m.use, m.pages, root, RoundUp(sz));
        assert procs0[p := procs0[p].(sz := sz)] == procs0;
      }
      procs := procs[p := procs[p].(sz := sz)];
      r := 0;
    }

    /** fork(): the child has a copy of the parent's user memory in frames of its own, the parent's
        registers except for a0, and a fresh pid; the parent is as before. It fails if and only if there is
        no slot or there are too few free frames for the slot, the pages and their tables; then there is no
        child and no memory has been used up. */
    method Fork(p: nat) returns (r: int, ghost np: nat)
      requires Valid() && p < |procs| && procs[p].pagetable.Some? && !procs[p].state.UNUSED? && !procs[p].state.USED?
      modifies this, m
      ensures Valid()
      ensures r == -1 <==> NoSlot(old(procs)) || |old(m.free)| < 5 + UserFrames(RoundUp(old(procs)[p].sz))
      ensures r == -1 ==> procs == old(procs) && Unaffected(old(m.ts), old(m.use), old(m.pages), m.ts, m.use, m.pages)
      ensures r != -1 ==>
                && np < |procs| == |old(procs)| && np != p && old(procs)[np] == BLANK
                    && procs == old(procs)[np := procs[np]]
                && r == procs[np].pid == old(nextpid) && nextpid == old(nextpid) + 1
                && procs[np].state.RUNNABLE? && procs[np].parent == Some(p) && procs[np].sz == procs[p].sz
                && procs[np].pagetable.Some? && procs[np].trapframe.Some? && procs[p].trapframe.Some?
                && (forall w :: 0 <= w < RoundUp(procs[p].sz) ==>
                      Copied(m.ts, m.pages, procs[p].pagetable.value, procs[np].pagetable.value, w))
                && procs[p].trapframe.value < |m.pages| && procs[np].trapframe.value < |m.pages|
                && SameRegisters(m.pages[procs[p].trapframe.value], m.pages[procs[np].trapframe.value])
                && Others(old(m.ts), old(m.use), old(m.pages), m.ts, m.use, m.pages, procs[np].pagetable.value,
                          Some(np))
      ensures nextpid == if NoSlot(old(procs)) then old(nextpid) else old(nextpid) + 1
      ensures old(Pids(m.pages, procs)) ==> Pids(m.pages, procs)
    {
      hide NodeOk, Anchored, FreeOk, Leaf, Back, Others, Belongs, Inv, Pids, Unaffected, Owns, Copied, SpaceOk;
      hide FramesFor, UserFrames, TreeFor, RoundUp, NoSlot;
      ghost var ts0, use0, pages0, procs0, owner0 := m.ts, m.use, m.pages, procs, owner;
      var c := AllocProc();
      np := 0;
      if c.None? {
        return -1, np;
      }
      np := c.value;
      ghost var root := procs[np].pagetable.value;
      ghost var ts1, use1, pages1 := m.ts, m.use, m.pages;
      ForkFrames(m.ts, m.use, procs, owner, trampoline, p, root);
      var ok := CopyMemory(p, c.value);
      OthersMore(ts1, use1, pages1, m.ts, m.use, m.pages, root, Some(np));
      OthersTwice(ts0, use0, pages0, ts1, use1, pages1, m.ts, m.use, m.pages, root, Some(np));
      if !ok {
        ghost var ts2, use2, pages2 := m.ts, m.use, m.pages;
        NothingYet(ts0, use0, procs0, owner0, trampoline, root, np);
        FreeProc(c.value);
        Undone(ts0, use0, pages0, ts2, use2, pages2, m.ts, m.use, m.pages, root, Some(np));
        assert procs == procs0;
        return -1, np;
      }
      ghost var ts2, use2, pages2 := m.ts, m.use, m.pages;
      Launch(p, c.value, root);
      OthersTwice(ts0, use0, pages0, ts2, use2, pages2, m.ts, m.use, m.pages, root, Some(np));
      r := procs[c.value].pid;
    }

    /** uvmcopy() from process p to the new process np. */
    method CopyMemory(p: nat, np: nat) returns (ok: bool)
      requires Valid() && p < |procs| && np < |procs| && p != np && procs[p].pagetable.Some?
      requires NewProc(procs[np], procs[np].pid) && HoldsPid(m.pages, procs[np])
      modifies this`procs, m
      ensures Valid() && |m.use| == old(|m.use|)
      ensures procs == if ok then old(procs)[np := old(procs)[np].(sz := old(procs)[p].sz)] else old(procs)
      ensures ok ==> forall w :: 0 <= w < RoundUp(procs[p].sz) ==>
                       Copied(m.ts, m.pages, procs[p].pagetable.value, procs[np].pagetable.value, w)
      ensures Others(old(m.ts), old(m.use), old(m.pages), m.ts, m.use, m.pages, old(procs)[np].pagetable.value, None)
      ensures ok <==> |old(m.free)| >= FramesFor(old(m.ts), old(procs)[np].pagetable.value, 0,
                                                 RoundUp(old(procs)[p].sz))
      ensures old(Pids(m.pages, procs)) ==> Pids(m.pages, procs)
    {
      hide NodeOk, Anchored, FreeOk, Leaf, Back, Others, Inv, Pids, Owns, Gained, OnlyPages, Copied, RoundUp, FramesFor;
      ghost var ts0, use0, pages0, procs0 := m.ts, m.use, m.pages, procs;
      SlotAt(m.ts, m.use, procs, owner, trampoline, p);
      SlotAt(m.ts, m.use, procs, owner, trampoline, np);
      RoundUpExact(0);
      var root := procs[np].pagetable.value;
      ok := m.UvmCopy(procs[p].pagetable.value, root, procs[p].sz);
      ghost var sz := if ok then procs[p].sz else 0;
      GainedOthers(ts0, use0, pages0, m.ts, m.use, m.pages, root, 0, RoundUp(sz));
      SameSizes(ts0, use0, pages0, m.ts, m.use, m.pages, root, None);
      OwnsBounded(m.ts, m.use, root, RoundUp(sz));
      FixedKept(ts0, use0, m.ts, root, 0, RoundUp(sz));
      Resized(ts0, use0, pages0, procs0, owner, m.ts, m.use, m.pages, procs0[np := procs0[np].(sz := sz)], trampoline,
              root, np, sz);
      if ok {
        procs := procs[np := procs[np].(sz := procs[p].sz)];
      } else {
        assert procs0[np := procs0[np].(sz := 0)] == procs0;
      }
    }

    /** The rest of fork(): registers, parent and state of the child. */
    method Launch(p: nat, np: nat, ghost root: nat)
      requires Valid() && p < |procs| && np < |procs| && p != np && procs[p].pagetable.Some?
      requires procs[np].pagetable.Some?
      requires procs[np].state.USED? && procs[np].sz == procs[p].sz
      requires forall w :: 0 <= w < RoundUp(procs[p].sz) ==>
                 Copied(m.ts, m.pages, procs[p].pagetable.value, procs[np].pagetable.value, w)
      modifies this`procs, m`pages
      ensures Valid() && |m.pages| == old(|m.pages|)
      ensures procs == old(procs)[np := old(procs)[np].(parent := Some(p), state := RUNNABLE)]
      ensures forall w :: 0 <= w < RoundUp(procs[p].sz) ==>
                Copied(m.ts, m.pages, procs[p].pagetable.value, procs[np].pagetable.value, w)
      ensures procs[p].trapframe.Some? && procs[np].trapframe.Some?
      ensures procs[p].trapframe.value < |m.pages| && procs[np].trapframe.value < |m.pages|
      ensures SameRegisters(m.pages[procs[p].trapframe.value], m.pages[procs[np].trapframe.value])
      ensures Others(m.ts, m.use, old(m.pages), m.ts, m.use, m.pages, root, Some(np))
      ensures old(Pids(m.pages, procs)) ==> Pids(m.pages, procs)
    {
      hide NodeOk, Anchored, FreeOk, Leaf, Back, Others, Inv, Owns, Copied, RoundUp, ForkedFrame, SameRegisters;
      hide PidBytes;
      ghost var pages0, procs0 := m.pages, procs;
      SlotAt(m.ts, m.use, procs, owner, trampoline, p);
      SlotAt(m.ts, m.use, procs, owner, trampoline, np);
      var from, to := procs[p].trapframe.value, procs[np].trapframe.value;
      FrameForked(m.pages[to], m.pages[from]);
      m.pages := m.pages[to := ForkedFrame(m.pages[to], m.pages[from])];
      FrameStored(m.ts, m.use, pages0, procs, owner, m.pages, trampoline, np, root);
      CopiedStill(m.ts, m.use, pages0, m.pages, procs[p].pagetable.value, procs[np].pagetable.value,
                  RoundUp(procs[p].sz));
      procs := procs[np := procs[np].(parent := Some(p))];
      procs := procs[np := procs[np].(state := RUNNABLE)];
      Relabelled(m.ts, m.use, m.pages, procs0, owner, procs, trampoline, np, procs[np]);
    }

    /** exit(), the part that concerns the process table: the children go to init, the process becomes
        a zombie and keeps its memory until it is reaped. */
    method Exit(p: nat, status: nat, init: nat)
      requires Valid() && p < |procs| && p != init && procs[p].pagetable.Some? && !procs[p].state.UNUSED?
      modifies this`procs
      ensures Valid() && |procs| == |old(procs)|
      ensures forall q :: 0 <= q < |procs| ==>
                procs[q] == (if q == p then old(procs)[q].(state := ZOMBIE, xstate := status) else old(procs)[q])
                            .(parent := if old(procs)[q].parent == Some(p) then Some(init) else old(procs)[q].parent)
      ensures old(Pids(m.pages, procs)) ==> Pids(m.pages, procs)
    {
      hide NodeOk, Anchored, FreeOk, Leaf, Back, Inv, Pids, Owns, Fixed;
      ghost var procs0 := procs;
      var q := 0;
      while q < |procs|
        invariant 0 <= q <= |procs| == |procs0| && Valid() && (Pids(m.pages, procs0) ==> Pids(m.pages, procs))
        invariant forall k :: 0 <= k < |procs| ==>
                    procs[k] == procs0[k].(parent := if k < q && procs0[k].parent == Some(p) then Some(init)
                                           else procs0[k].parent)
      {
        if procs[q].parent == Some(p) {
          SlotAt(m.ts, m.use, procs, owner, trampoline, q);
          Relabelled(m.ts, m.use, m.pages, procs, owner, procs[q := procs[q].(parent := Some(init))], trampoline, q,
                     procs[q].(parent := Some(init)));
          PidAt(m.pages, procs, q);
          procs := procs[q := procs[q].(parent := Some(init))];
        }
        q := q + 1;
      }
      SlotAt(m.ts, m.use, procs, owner, trampoline, p);
      PidAt(m.pages, procs, p);
      ghost var procs1 := procs;
      procs := procs[p := procs[p].(xstate := status)];
      procs := procs[p := procs[p].(state := ZOMBIE)];
      Relabelled(m.ts, m.use, m.pages, procs1, owner, procs, trampoline, p, procs[p]);
    }

    /** copyout() of an exit status to the process. */
    method StoreInt(p: nat, addr: nat, status: nat) returns (ok: bool)
      requires Valid() && p < |procs| && procs[p].pagetable.Some?
      modifies m`pages
      ensures Valid() && |m.pages| == old(|m.pages|)
      ensures ok <==> forall a :: addr <= a < addr + 4 ==> Mapped(m.ts, procs[p].pagetable.value, a)
      ensures KeptOutside(m.ts, old(m.pages), m.ts, m.pages, procs[p].pagetable.value, addr, addr + 4)
      ensures ok ==> Fetched(m.ts, m.pages, procs[p].pagetable.value, addr, PidBytes(status))
      ensures Others(m.ts, m.use, old(m.pages), m.ts, m.use, m.pages, procs[p].pagetable.value, Some(p))
      ensures forall q :: 0 <= q < |procs| && q != p && old(HoldsPid(m.pages, procs[q])) ==> HoldsPid(m.pages, procs[q])
      ensures old(HoldsPid(m.pages, procs[p])) ==>
                (HoldsPid(m.pages, procs[p]) <==> IntSpares(addr, status, procs[p].pid))
      ensures !ok ==> IntSpares(addr, status, procs[p].pid)
    {
      hide NodeOk, Anchored, FreeOk, Leaf, Back, Inv, Pids, SpaceOk, Others, PidBytes, UserOk, HoldsPid, Translate;
      hide IntSpares, SparesPid;
      ghost var pages0, root := m.pages, procs[p].pagetable.value;
      SlotAt(m.ts, m.use, procs, owner, trampoline, p);
      SpaceUserOk(m.ts, m.use, m.pages, owner, trampoline, p, procs[p]);
      ghost var done;
      ok, done := CopyOut(m, procs[p].pagetable.value, addr, PidBytes(status));
      WrittenOthers(m.ts, m.use, pages0, m.pages, owner, trampoline, p, procs[p], addr, PidBytes(status), done);
      WrittenKept(m.ts, pages0, m.pages, root, addr, PidBytes(status), done);
      OtherPids(m.ts, m.use, pages0, m.pages, procs, owner, trampoline, p);
      IntReach(m.ts, m.use, pages0, m.pages, owner, trampoline, p, procs[p], addr, status, done);
      if HoldsPid(pages0, procs[p]) {
        PidAfterWrite(m.ts, m.use, pages0, m.pages, owner, trampoline, p, procs[p], addr, PidBytes(status), done);
      }
    }

    /** A process that runs: the hardware records an access to one of its pages in the entry's accessed bit, and
        a store in the dirty bit. */
    method Access(p: nat, w: nat, rest: nat)
      requires Valid() && p < |procs| && procs[p].pagetable.Some? && w < MAXVPN
      requires Leaf(m.ts, procs[p].pagetable.value, w).v
      modifies m`ts
      ensures Valid() && Marks(old(m.ts), m.use, m.ts) && PageAccess.Accessed(m.ts, procs[p].pagetable.value, w)
      ensures OnlyPages(old(m.ts), m.use, m.ts, procs[p].pagetable.value, w, w + 1)
    {
      hide Wf, FreeOk, Leaf, LowOf, Px, Back, Inv;
      ghost var ts0 := m.ts;
      SlotAt(m.ts, m.use, procs, owner, trampoline, p);
      var root := procs[p].pagetable.value;
      LeafLow(m.ts, root, w);
      LowUse(m.ts, m.use, root, w);
      LeafPerm(m.ts, m.use, root, w);
      var l := LowOf(m.ts, root, w).value;
      var e := m.ts[l][Px(0, w)];
      var e' := e.(perm := e.perm.(a := true, rest := rest));
      SetLeaf(m.ts, m.use, root, w, e');
      m.ts := m.ts[l := m.ts[l][Px(0, w) := e']];
      OneMark(ts0, m.use, m.ts, root, w);
      MarksKeep(ts0, m.use, m.ts, procs, owner, trampoline);
    }

    /** pgaccess(): the mask of accessed pages is copied out, the accessed bits it reports are cleared, and the
        process table stays in order. As with wait(), the mask can hit the pid. */
    method Pgaccess(p: nat, first: nat, n: nat, addr: nat) returns (ghost mask: nat)
      requires Valid() && p < |procs| && procs[p].pagetable.Some? && n <= 32 && first + n <= MAXVPN
      modifies m`ts, m`pages
      ensures Valid() && |m.pages| == old(|m.pages|)
      ensures PageAccess.Reports(old(m.ts), procs[p].pagetable.value, first, n, mask)
      ensures PageAccess.ClearedA(old(m.ts), m.use, m.ts, procs[p].pagetable.value, first, n)
      ensures Marks(old(m.ts), m.use, m.ts)
      ensures Others(m.ts, m.use, old(m.pages), m.ts, m.use, m.pages, procs[p].pagetable.value, Some(p))
      ensures KeptOutside(old(m.ts), old(m.pages), m.ts, m.pages, procs[p].pagetable.value, addr, addr + 4)
      ensures (forall a :: addr <= a < addr + 4 ==> Mapped(m.ts, procs[p].pagetable.value, a)) ==>
                UserOk(m.ts, m.pages, procs[p].pagetable.value)
                && Fetched(m.ts, m.pages, procs[p].pagetable.value, addr, PidBytes(mask))
      ensures forall q :: 0 <= q < |procs| && q != p && old(HoldsPid(m.pages, procs[q])) ==> HoldsPid(m.pages, procs[q])
      ensures old(HoldsPid(m.pages, procs[p])) ==>
                (HoldsPid(m.pages, procs[p]) <==> IntSpares(addr, mask, procs[p].pid))
    {
      hide NodeOk, Anchored, FreeOk, Leaf, Back, Inv, Pids, SpaceOk, Others, PidBytes, UserOk, HoldsPid, Translate;
      hide IntSpares, Fetched, KeptOutside, PageAccess.Reports, PageAccess.ClearedA, Marks;
      ghost var ts0, pages0 := m.ts, m.pages;
      SlotAt(m.ts, m.use, procs, owner, trampoline, p);
      var root := procs[p].pagetable.value;
      RootThere(m.ts, m.use, owner, trampoline, p, procs[p]);
      var bits := PageAccess.PgAccess(m, root, first, n);
      mask := bits;
      ClearedMarks(ts0, m.use, m.ts, root, first, n);
      MarksKeep(ts0, m.use, m.ts, procs, owner, trampoline);
      SpaceUserOk(ts0, m.use, m.pages, owner, trampoline, p, procs[p]);
      SameTranslation(ts0, m.ts, m.pages, root);
      var ok := StoreInt(p, addr, bits);
      KeptOutsideAfter(ts0, pages0, m.ts, pages0, m.pages, root, addr, addr + 4);
    }

    /** One pass of wait(): the first zombie child, if there is one, is reaped after its status has been
        stored, and all its memory becomes free. If the status cannot be stored, it stays a zombie. Nothing
        changes but the status in the caller's memory and the child; of the pids in the usyscall pages, only
        the caller's own can be lost, namely to a status stored over it. */
    method Wait(p: nat, addr: nat) returns (r: WaitOutcome)
      requires Valid() && p < |procs| && procs[p].pagetable.Some? && !procs[p].state.ZOMBIE?
      modifies this`procs, m
      ensures |procs| == |old(procs)| && procs[p] == old(procs)[p]
      ensures Valid()
      ensures r.NoChildren? <==> forall q :: 0 <= q < |old(procs)| ==> old(procs)[q].parent != Some(p)
      ensures r.NoChildren? || r.MustSleep? <==> forall q :: 0 <= q < |old(procs)| ==> !ZombieChild(old(procs), p, q)
      ensures r.NoChildren? || r.MustSleep? ==>
              procs == old(procs) && m.use == old(m.use) && m.pages == old(m.pages) && m.ts == old(m.ts)
      ensures r.BadAddress? ==> addr != 0 && exists a ::
              addr <= a < addr + 4 && !Mapped(m.ts, procs[p].pagetable.value, a)
      ensures r.BadAddress? ==>
                && procs == old(procs) && m.use == old(m.use) && m.ts == old(m.ts)
                && Others(m.ts, m.use, old(m.pages), m.ts, m.use, m.pages, procs[p].pagetable.value, Some(p))
                && KeptOutside(m.ts, old(m.pages), m.ts, m.pages, procs[p].pagetable.value, addr, addr + 4)
      ensures r.Reaped? ==>
                && r.child < |old(procs)| && ZombieChild(old(procs), p, r.child) && r.pid == old(procs)[r.child].pid
                && (forall q :: 0 <= q < r.child ==> !ZombieChild(old(procs), p, q))
                && procs == old(procs)[r.child := BLANK]
                && m.use == Freed(old(m.use), RootOf(old(procs)[r.child], |m.use|), Some(r.child))
                && Stored(m.ts, m.pages, procs[p].pagetable.value, addr, old(procs)[r.child].xstate)
                && KeptOutside(old(m.ts), old(m.pages), m.ts, m.pages, procs[p].pagetable.value, addr,
                               if addr == 0 then 0 else addr + 4)
                && OthersOfTwo(old(m.ts), old(m.use), old(m.pages), m.ts, m.use, m.pages, procs[p].pagetable.value,
                               Some(p), RootOf(old(procs)[r.child], |m.use|), Some(r.child))
      ensures forall q :: 0 <= q < |procs| && q != p && old(HoldsPid(m.pages, procs[q])) ==> HoldsPid(m.pages, procs[q])
      ensures old(HoldsPid(m.pages, procs[p])) ==>
                (HoldsPid(m.pages, procs[p]) <==>
                   (r.Reaped? ==> IntSpares(addr, old(procs)[r.child].xstate, procs[p].pid)))
    {
      hide NodeOk, Anchored, FreeOk, Leaf, Back, Inv, Pids, Owns, Fixed, Others, UserOk, Written, HoldsPid, Translate;
      hide PidBytes;
      hide Belongs, Stored, KeptOutside, OthersOfTwo, IntSpares;
      var havekids, q := false, 0;
      while q < |procs|
        invariant 0 <= q <= |procs| && (havekids <==> exists k :: 0 <= k < q && procs[k].parent == Some(p))
        invariant forall k :: 0 <= k < q ==> !ZombieChild(procs, p, k)
      {
        if procs[q].parent == Some(p) {
          havekids := true;
          if procs[q].state.ZOMBIE? {
            assert ZombieChild(procs, p, q);
            var pid := procs[q].pid;
            var ok := Reap(p, q, addr);
            return if ok then Reaped(q, pid) else BadAddress;
          }
        }
        q := q + 1;
      }
      r := if havekids then MustSleep else NoChildren;
    }

    /** What wait() does with a zombie child. */
    method Reap(p: nat, q: nat, addr: nat) returns (ok: bool)
      requires Valid() && p < |procs| && q < |procs| && p != q && procs[p].pagetable.Some?
      modifies this`procs, m
      ensures Valid()
      ensures ok <==> addr == 0 || forall a :: addr <= a < addr + 4 ==>
              Mapped(old(m.ts), old(procs)[p].pagetable.value, a)
      ensures !ok ==>
                && procs == old(procs) && m.use == old(m.use) && m.ts == old(m.ts)
                && Others(m.ts, m.use, old(m.pages), m.ts, m.use, m.pages, procs[p].pagetable.value, Some(p))
                && KeptOutside(m.ts, old(m.pages), m.ts, m.pages, procs[p].pagetable.value, addr, addr + 4)
      ensures ok ==>
                && procs == old(procs)[q := BLANK]
                && m.use == Freed(old(m.use), RootOf(old(procs)[q], |m.use|), Some(q))
                && Stored(m.ts, m.pages, procs[p].pagetable.value, addr, old(procs)[q].xstate)
                && KeptOutside(old(m.ts), old(m.pages), m.ts, m.pages, procs[p].pagetable.value, addr,
                               if addr == 0 then 0 else addr + 4)
                && OthersOfTwo(old(m.ts), old(m.use), old(m.pages), m.ts, m.use, m.pages, procs[p].pagetable.value,
                               Some(p), RootOf(old(procs)[q], |m.use|), Some(q))
      ensures forall s :: 0 <= s < |procs| && s != p && old(HoldsPid(m.pages, procs[s])) ==> HoldsPid(m.pages, procs[s])
      ensures old(HoldsPid(m.pages, procs[p])) ==>
                (HoldsPid(m.pages, procs[p]) <==> (ok ==> IntSpares(addr, old(procs)[q].xstate, procs[p].pid)))
    {
      hide NodeOk, Anchored, FreeOk, Leaf, Back, Inv, Pids, Owns, Fixed, Others, UserOk, HoldsPid, Translate, PidBytes;
      hide Belongs;
      hide OthersOfTwo, KeptOutside, Stored, Fetched, IntSpares, RootOf;
      ghost var pages0 := m.pages;
      if addr != 0 {
        ok := StoreInt(p, addr, procs[q].xstate);
        if !ok {
          return;
        }
      } else {
        NothingStored(m.ts, m.use, m.pages, procs, owner, trampoline, p, procs[q].xstate);
      }
      FreeZombie(p, q, addr, pages0);
      ok := true;
    }

    /** freeproc() of a zombie after its status has been stored. */
    method FreeZombie(p: nat, q: nat, ghost addr: nat, ghost pages0: seq<PageBytes>)
      requires Valid() && p < |procs| && q < |procs| && p != q && procs[p].pagetable.Some?
      requires Others(m.ts, m.use, pages0, m.ts, m.use, m.pages, procs[p].pagetable.value, Some(p))
      requires KeptOutside(m.ts, pages0, m.ts, m.pages, procs[p].pagetable.value, addr, if addr == 0 then 0
                           else addr + 4)
      requires addr != 0 ==> Fetched(m.ts, m.pages, procs[p].pagetable.value, addr, PidBytes(procs[q].xstate))
      modifies this`procs, m
      ensures Valid() && |m.use| == old(|m.use|) && procs == old(procs)[q := BLANK]
      ensures m.use == Freed(old(m.use), RootOf(old(procs)[q], |m.use|), Some(q))
      ensures Stored(m.ts, m.pages, procs[p].pagetable.value, addr, old(procs)[q].xstate)
      ensures KeptOutside(old(m.ts), pages0, m.ts, m.pages, procs[p].pagetable.value, addr, if addr == 0 then 0
                          else addr + 4)
      ensures OthersOfTwo(old(m.ts), old(m.use), pages0, m.ts, m.use, m.pages, procs[p].pagetable.value, Some(p),
                          RootOf(old(procs)[q], |m.use|), Some(q))
      ensures forall s :: 0 <= s < |procs| && s != q ==>
              (HoldsPid(m.pages, procs[s]) <==> old(HoldsPid(m.pages, procs[s])))
      ensures HoldsPid(m.pages, procs[q])
    {
      hide NodeOk, Anchored, FreeOk, Leaf, Back, Inv, Pids, Owns, Fixed, Others, UserOk, HoldsPid, Translate, PidBytes;
      hide Belongs;
      hide OthersOfTwo, KeptOutside, Stored, Fetched;
      ghost var ts1, use1, pages1, root := m.ts, m.use, m.pages, procs[p].pagetable.value;
      SlotAt(m.ts, m.use, procs, owner, trampoline, p);
      SlotAt(m.ts, m.use, procs, owner, trampoline, q);
      SpaceUserOk(m.ts, m.use, m.pages, owner, trampoline, p, procs[p]);
      ghost var status, gone := procs[q].xstate, RootOf(procs[q], |m.use|);
      FreeProc(q);
      SlotAt(m.ts, m.use, procs, owner, trampoline, p);
      SpaceUserOk(m.ts, m.use, m.pages, owner, trampoline, p, procs[p]);
      BytesKept(ts1, use1, pages1, m.ts, m.use, m.pages, owner, trampoline, gone, q, p, procs[p]);
      KeptOutsideThen(ts1, pages0, ts1, pages1, m.ts, m.pages, root, addr, if addr == 0 then 0 else addr + 4);
      OthersPair(ts1, use1, pages0, ts1, use1, pages1, m.ts, m.use, m.pages, root, Some(p), gone, Some(q));
      StoredStill(ts1, pages1, m.ts, m.pages, root, addr, status);
      BlankPid(m.pages);
    }
  }

  lemma OneMark(ts0: Tables, use: seq<Use>, ts1: Tables, root: nat, w: nat)
    requires forall q, v :: IsRoot(use, q) && 0 <= v < MAXVPN && !(q == root && v == w) ==>
               Leaf(ts1, q, v) == Leaf(ts0, q, v)
    requires Marked(Leaf(ts0, root, w), Leaf(ts1, root, w))
    ensures Marks(ts0, use, ts1)
  {
    hide Leaf;
  }

  lemma ClearedMarks(ts0: Tables, use: seq<Use>, ts1: Tables, root: nat, first: nat, n: nat)
    requires PageAccess.ClearedA(ts0, use, ts1, root, first, n)
    ensures Marks(ts0, use, ts1)
  {
    hide Leaf;
  }

  lemma RootThere(ts: Tables, use: seq<Use>, owner: seq<nat>, trampoline: nat, p: nat, pr: Proc)
    requires SlotOk(ts, use, owner, trampoline, p, pr) && pr.pagetable.Some?
    ensures IsRoot(use, pr.pagetable.value)
  {
  }

  lemma SameTranslation(ts0: Tables, ts1: Tables, pages: seq<PageBytes>, root: nat)
    requires UserOk(ts0, pages, root) && forall w :: Translate(ts1, root, w) == Translate(ts0, root, w)
    ensures KeptOutside(ts0, pages, ts1, pages, root, 0, 0)
  {
    hide Translate, PageNo, Offset;
  }

  lemma KeptOutsideAfter(ts0: Tables, pages0: seq<PageBytes>, ts1: Tables, pages1: seq<PageBytes>,
                         pages2: seq<PageBytes>, root: nat, lo: nat, hi: nat)
    requires KeptOutside(ts0, pages0, ts1, pages1, root, 0, 0) && KeptOutside(ts1, pages1, ts1, pages2, root, lo, hi)
    ensures KeptOutside(ts0, pages0, ts1, pages2, root, lo, hi) && UserOk(ts1, pages2, root)
  {
    hide Mapped, ByteAt, UserOk;
  }
}
