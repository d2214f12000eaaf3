/** Which memory the processes in the table own (kernel/proc.c), and what changes of it keep in order. */
module ProcMemory {
  import opened Common
  import opened Sv39
  import opened PageTable
  import opened FrameCount
  import opened VirtualMemory
  import opened AddressSpace
  import opened UserCopy

  /** struct proc, the fields that concern memory and family. */
  datatype Proc = Proc(state: ProcState, pid: nat, parent: Option<nat>, xstate: nat, sz: nat,
                       pagetable: Option<nat>, trapframe: Option<nat>, usyscall: Option<nat>)

  const BLANK := Proc(UNUSED, 0, None, 0, 0, None, None, None)

  const NPROC := 64

  const USER_WRITE := Perm(true, true, false, true, false, false, 0)

  /** allocproc() finds no slot. */
  predicate NoSlot(procs: seq<Proc>)
  {
    forall q :: 0 <= q < |procs| ==> !procs[q].state.UNUSED?
  }

  function RootOf(pr: Proc, none: nat): nat { if pr.pagetable.Some? then pr.pagetable.value else none }

  ghost predicate Holds(use: seq<Use>, f: Option<nat>, u: Use) { f.Some? ==> f.value < |use| && use[f.value] == u }

  /** Process p's page table maps exactly its user memory and the three fixed pages. */
  ghost predicate SpaceOk(ts: Tables, use: seq<Use>, trampoline: nat, pr: Proc)
    requires pr.pagetable.Some?
  {
    && pr.trapframe.Some? && pr.usyscall.Some?
    && IsRoot(use, pr.pagetable.value) && Owns(ts, use, pr.pagetable.value, RoundUp(pr.sz))
    && Fixed(ts, pr.pagetable.value, trampoline, pr.trapframe.value, pr.usyscall.value)
  }

  /** An unused slot is blank; a slot in state USED may still be under construction; in all other
      states the process has a complete address space. */
  ghost predicate SlotOk(ts: Tables, use: seq<Use>, owner: seq<nat>, trampoline: nat, p: nat, pr: Proc)
  {
    && Holds(use, pr.trapframe, ProcPage(p, Trapframe)) && Holds(use, pr.usyscall, ProcPage(p, Usyscall))
    && (pr.pagetable.Some? ==>
          SpaceOk(ts, use, trampoline, pr) && pr.pagetable.value < |owner| && owner[pr.pagetable.value] == p)
    && (pr.state.UNUSED? ==> pr == BLANK)
    && (!pr.state.UNUSED? && !pr.state.USED? ==> pr.pagetable.Some?)
  }

  /** A frame's owner knows about it: each root is some process's,
      and each process page is its process's. */
  ghost predicate Accounted(use: seq<Use>, f: nat, procs: seq<Proc>, owner: seq<nat>)
    requires f < |use| == |owner|
  {
    && (IsRoot(use, f) ==> owner[f] < |procs| && procs[owner[f]].pagetable == Some(f))
    && (use[f].ProcPage? ==>
          && use[f].p < |procs|
          && (if use[f].kind.Trapframe? then procs[use[f].p].trapframe else procs[use[f].p].usyscall) == Some(f))
  }

  ghost predicate Inv(ts: Tables, use: seq<Use>, procs: seq<Proc>, owner: seq<nat>, trampoline: nat)
  {
    && |use| == |owner|
    && (forall p :: 0 <= p < |procs| ==> SlotOk(ts, use, owner, trampoline, p, procs[p]))
    && (forall f :: 0 <= f < |use| ==> Accounted(use, f, procs, owner))
  }

  /** Another process is not affected by what happens to (root, p). */
  lemma SlotKept(ts0: Tables, use0: seq<Use>, pages0: seq<PageBytes>, ts1: Tables, use1: seq<Use>,
                 pages1: seq<PageBytes>, owner0: seq<nat>, owner1: seq<nat>, trampoline: nat, root: nat, p:
                 Option<nat>, q: nat, pr: Proc)
    requires SlotOk(ts0, use0, owner0, trampoline, q, pr) && Others(ts0, use0, pages0, ts1, use1, pages1, root, p)
    requires |owner1| == |owner0| == |use0| && forall f :: 0 <= f < |owner0| && f != root ==> owner1[f] == owner0[f]
    requires pr.pagetable != Some(root) && Some(q) != p
    ensures SlotOk(ts1, use1, owner1, trampoline, q, pr)
    ensures pr.usyscall.Some? ==> pages1[pr.usyscall.value] == pages0[pr.usyscall.value]
  {
    hide Leaf;
    if pr.pagetable.Some? {
      SpaceKept(ts0, use0, pages0, ts1, use1, pages1, root, p, pr.pagetable.value, RoundUp(pr.sz));
    }
  }

  lemma SpaceKept(ts0: Tables, use0: seq<Use>, pages0: seq<PageBytes>, ts1: Tables, use1: seq<Use>,
                  pages1: seq<PageBytes>, root: nat, p: Option<nat>, r: nat, n: nat)
    requires Others(ts0, use0, pages0, ts1, use1, pages1, root, p) && IsRoot(use0, r) && r != root
    requires Owns(ts0, use0, r, n)
    ensures IsRoot(use1, r) && Owns(ts1, use1, r, n)
    ensures forall w :: 0 <= w < MAXVPN ==> Leaf(ts1, r, w) == Leaf(ts0, r, w)
  {
    hide Leaf;
    forall w | 0 <= w < n
      ensures OwnPage(ts1, use1, r, w)
    {
      assert OwnPage(ts0, use0, r, w);
    }
  }

  /** A change of what belongs to (root, p), and of the slot of process p, keeps the invariant if the
      slot is right afterwards. */
  lemma InvStep(ts0: Tables, use0: seq<Use>, pages0: seq<PageBytes>, procs0: seq<Proc>, owner0: seq<nat>,
                ts1: Tables, use1: seq<Use>, pages1: seq<PageBytes>, procs1: seq<Proc>, owner1: seq<nat>,
                trampoline: nat, root: nat, p: nat, pr: Proc)
    requires Inv(ts0, use0, procs0, owner0, trampoline)
    requires Others(ts0, use0, pages0, ts1, use1, pages1, root, Some(p))
    requires p < |procs0| && procs1 == procs0[p := pr]
    requires (procs0[p].pagetable == None || procs0[p].pagetable == Some(root))
    requires owner1 == owner0 || (root < |owner0| && owner1 == owner0[root := p])
    requires forall q :: 0 <= q < |procs0| && q != p ==> procs0[q].pagetable != Some(root)
    requires SlotOk(ts1, use1, owner1, trampoline, p, pr)
    requires forall f :: 0 <= f < |use1| && Belongs(use1[f], root, Some(p)) ==> Accounted(use1, f, procs1, owner1)
    ensures Inv(ts1, use1, procs1, owner1, trampoline)
    ensures forall q :: 0 <= q < |procs0| && q != p && procs0[q].usyscall.Some? ==>
              procs0[q].usyscall.value < |use0| && pages1[procs0[q].usyscall.value] == pages0[procs0[q].usyscall.value]
  {
    hide Leaf, SpaceOk;
    forall q | 0 <= q < |procs0| && q != p
      ensures SlotOk(ts1, use1, owner1, trampoline, q, procs1[q])
      ensures procs0[q].usyscall.Some? ==>
                procs0[q].usyscall.value < |use0|
                    && pages1[procs0[q].usyscall.value] == pages0[procs0[q].usyscall.value]
    {
      SlotKept(ts0, use0, pages0, ts1, use1, pages1, owner0, owner1, trampoline, root, Some(p), q, procs0[q]);
    }
    forall f | 0 <= f < |use1|
      ensures Accounted(use1, f, procs1, owner1)
    {
      assert Accounted(use0, f, procs0, owner0);
    }
  }

  /** The usyscall page starts with the pid, little-endian. */
  function PidBytes(pid: nat): (s: seq<Byte>)
    ensures |s| == 4
  {
    [pid % 256, pid / 256 % 256, pid / 65536 % 256, pid / 16777216 % 256]
  }

  ghost predicate HoldsPid(pages: seq<PageBytes>, pr: Proc)
  {
    pr.pagetable.Some? && pr.usyscall.Some? && pr.usyscall.value < |pages| ==>
        pages[pr.usyscall.value][..4] == PidBytes(pr.pid)
  }

  ghost predicate Pids(pages: seq<PageBytes>, procs: seq<Proc>)
  {
    forall p :: 0 <= p < |procs| ==> HoldsPid(pages, procs[p])
  }

  /** kalloc() of a page that the kernel keeps for a process. */
  method AllocFor(m: Memory, ghost u: Use) returns (r: Option<nat>)
    requires m.Valid() && Back(m.ts, m.use) && u.ProcPage?
    modifies m
    ensures m.Valid() && Back(m.ts, m.use) && m.ts == old(m.ts)
    ensures r.None? <==> |old(m.free)| < 1
    ensures r.None? ==> m.use == old(m.use) && m.pages == old(m.pages)
    ensures r.Some? ==> |m.free| == |old(m.free)| - 1
    ensures r.Some? ==> r.value < |m.use| && old(m.use)[r.value].Free?
    ensures r.Some? ==> m.use == old(m.use)[r.value := u] && m.pages == old(m.pages)[r.value := Filled(5)]
  {
    hide NodeOk, Anchored, FreeOk, Leaf;
    ghost var use0 := m.use;
    FirstFree(m.free, m.use);
    r := m.Kalloc();
    if r.Some? {
      KernelUse(m.ts, m.use, r.value, u);
      InUse(m.free, m.use, r.value, u);
      m.use := m.use[r.value := u];
      BackKept(m.ts, use0, m.ts, m.use);
    }
  }

  /** kfree() of such a page. */
  method FreeFor(m: Memory, f: nat)
    requires m.Valid() && Back(m.ts, m.use) && f < |m.use| && m.use[f].ProcPage?
    modifies m
    ensures m.Valid() && Back(m.ts, m.use) && m.ts == old(m.ts)
    ensures m.use == old(m.use)[f := Free] && m.pages == old(m.pages)[f := Filled(1)]
  {
    hide NodeOk, Anchored, FreeOk, Leaf;
    ghost var use0 := m.use;
    KernelUse(m.ts, m.use, f, Free);
    m.Kfree(f);
    BackKept(m.ts, use0, m.ts, m.use);
  }

  /** A frame given to process p, or taken from it. */
  lemma OneFrame(ts: Tables, use0: seq<Use>, pages0: seq<PageBytes>, use1: seq<Use>, pages1: seq<PageBytes>,
                 f: nat, root: nat, p: nat)
    requires |pages0| == |use0| && f < |use0| == |use1| && use1 == use0[f := use1[f]] && |pages1| == |pages0|
    requires pages1 == pages0[f := pages1[f]]
    requires use0[f].Free? || Belongs(use0[f], root, Some(p))
    requires use1[f].Free? || Belongs(use1[f], root, Some(p))
    ensures Others(ts, use0, pages0, ts, use1, pages1, root, Some(p))
  {
  }

  lemma SlotAt(ts: Tables, use: seq<Use>, procs: seq<Proc>, owner: seq<nat>, trampoline: nat, p: nat)
    requires Inv(ts, use, procs, owner, trampoline) && p < |procs|
    ensures SlotOk(ts, use, owner, trampoline, p, procs[p]) && |owner| == |use|
    ensures forall q :: 0 <= q < |procs| && q != p ==> procs[q].pagetable != Some(RootOf(procs[p], |use|))
  {
  }

  lemma OwnsUse(ts: Tables, use0: seq<Use>, use1: seq<Use>, root: nat, n: nat)
    requires |use1| == |use0| && forall f :: 0 <= f < |use0| && (use0[f].Table? || use0[f].Page?) ==> use1[f] == use0[f]
    ensures IsRoot(use0, root) && Owns(ts, use0, root, n) ==> IsRoot(use1, root) && Owns(ts, use1, root, n)
  {
    hide Leaf;
    if IsRoot(use0, root) && Owns(ts, use0, root, n) {
      forall w | 0 <= w < n
        ensures OwnPage(ts, use1, root, w)
      {
        assert OwnPage(ts, use0, root, w);
      }
    }
  }

  lemma NoneFreed(use: seq<Use>, root: nat)
    requires forall f :: 0 <= f < |use| ==> !Belongs(use[f], root, None)
    ensures Freed(use, root, None) == use
  {
  }

  lemma FreedBoth(ts: Tables, use0: seq<Use>, use1: seq<Use>, procs: seq<Proc>, owner: seq<nat>, trampoline: nat,
                  p: nat, root: nat)
    requires Inv(ts, use0, procs, owner, trampoline) && p < |procs| && |use1| == |use0|
    requires forall f :: 0 <= f < |use0| ==>
               use1[f] == if Some(f) == procs[p].trapframe || Some(f) == procs[p].usyscall then Free else use0[f]
    ensures Freed(use1, root, None) == Freed(use0, root, Some(p))
  {
    hide SlotOk;
    var a, b := Freed(use1, root, None), Freed(use0, root, Some(p));
    assert SlotOk(ts, use0, owner, trampoline, p, procs[p]);
    SlotHolds(ts, use0, owner, trampoline, p, procs[p]);
    forall f | 0 <= f < |use0|
      ensures a[f] == b[f]
    {
      assert Accounted(use0, f, procs, owner);
    }
    assert a == b;
  }

  lemma SlotHolds(ts: Tables, use: seq<Use>, owner: seq<nat>, trampoline: nat, p: nat, pr: Proc)
    requires SlotOk(ts, use, owner, trampoline, p, pr)
    ensures Holds(use, pr.trapframe, ProcPage(p, Trapframe)) && Holds(use, pr.usyscall, ProcPage(p, Usyscall))
  {
  }

  lemma FreedInv(ts0: Tables, use0: seq<Use>, pages0: seq<PageBytes>, procs0: seq<Proc>, owner: seq<nat>,
                 ts1: Tables, use1: seq<Use>, pages1: seq<PageBytes>, procs1: seq<Proc>, trampoline: nat, root: nat, p:
                 nat)
    requires Inv(ts0, use0, procs0, owner, trampoline) && p < |procs0| && root == RootOf(procs0[p], |use0|)
    requires Others(ts0, use0, pages0, ts1, use1, pages1, root, Some(p)) && use1 == Freed(use0, root, Some(p))
    requires procs1 == procs0[p := BLANK]
    ensures Inv(ts1, use1, procs1, owner, trampoline) && (Pids(pages0, procs0) ==> Pids(pages1, procs1))
    ensures forall q :: 0 <= q < |procs0| && q != p ==> (HoldsPid(pages1, procs0[q]) <==> HoldsPid(pages0, procs0[q]))
  {
    hide Leaf, Others, SpaceOk;
    SlotAt(ts0, use0, procs0, owner, trampoline, p);
    forall f | 0 <= f < |use1|
      ensures !Belongs(use1[f], root, Some(p))
    {
    }
    InvStep(ts0, use0, pages0, procs0, owner, ts1, use1, pages1, procs1, owner, trampoline, root, p, BLANK);
    SameSizes(ts0, use0, pages0, ts1, use1, pages1, root, Some(p));
    if Pids(pages0, procs0) {
      forall q | 0 <= q < |procs1|
        ensures HoldsPid(pages1, procs1[q])
      {
        assert HoldsPid(pages0, procs0[q]);
      }
    }
  }

  lemma SameSizes(ts0: Tables, use0: seq<Use>, pages0: seq<PageBytes>, ts1: Tables, use1: seq<Use>,
                  pages1: seq<PageBytes>,
                    root: nat, p: Option<nat>)
    requires Others(ts0, use0, pages0, ts1, use1, pages1, root, p)
    ensures |use1| == |use0| == |pages0| == |pages1|
  {
  }

  /** No frame in use, and no address space, changed in any way. */
  ghost predicate Unaffected(ts0: Tables, use0: seq<Use>, pages0: seq<PageBytes>, ts1: Tables, use1: seq<Use>,
                             pages1: seq<PageBytes>)
  {
    && use1 == use0 && |pages1| == |pages0| == |use0|
    && (forall f :: 0 <= f < |use0| && !use0[f].Free? ==> pages1[f] == pages0[f])
    && (forall q, w :: IsRoot(use0, q) && 0 <= w < MAXVPN ==> Leaf(ts1, q, w) == Leaf(ts0, q, w))
  }

  /** What belongs to a blank slot, and to an address space that is not there: nothing. */
  lemma NothingYet(ts: Tables, use: seq<Use>, procs: seq<Proc>, owner: seq<nat>, trampoline: nat, root: nat, p: nat)
    requires Wf(ts, use) && Back(ts, use) && Inv(ts, use, procs, owner, trampoline) && !IsRoot(use, root)
    requires p < |procs| && procs[p].trapframe == None && procs[p].usyscall == None
    ensures forall f :: 0 <= f < |use| ==> !Belongs(use[f], root, Some(p))
  {
    hide Leaf;
    NoSpace(ts, use, root);
    forall f | 0 <= f < |use|
      ensures !Belongs(use[f], root, Some(p))
    {
      assert !Belongs(use[f], root, None);
      assert Accounted(use, f, procs, owner);
    }
  }

  /** What was built and freed again has left no trace. */
  lemma Undone(ts0: Tables, use0: seq<Use>, pages0: seq<PageBytes>, ts1: Tables, use1: seq<Use>, pages1: seq<PageBytes>,
               ts2: Tables, use2: seq<Use>, pages2: seq<PageBytes>, root: nat, p: Option<nat>)
    requires forall f :: 0 <= f < |use0| ==> !Belongs(use0[f], root, p)
    requires Others(ts0, use0, pages0, ts1, use1, pages1, root, p)
    requires Others(ts1, use1, pages1, ts2, use2, pages2, root, p)
    requires use2 == Freed(use1, root, p) && !IsRoot(use0, root)
    ensures Unaffected(ts0, use0, pages0, ts2, use2, pages2)
  {
  }

  /** A frame for the slot: it is the slot's only frame of its kind. */
  lemma FrameGiven(ts: Tables, use0: seq<Use>, pages0: seq<PageBytes>, procs0: seq<Proc>, owner: seq<nat>,
                   use1: seq<Use>, pages1: seq<PageBytes>, procs1: seq<Proc>, trampoline: nat, p: nat, kind: Kind, f:
                   nat)
    requires Wf(ts, use0) && Back(ts, use0) && Inv(ts, use0, procs0, owner, trampoline) && Wf(ts, use1)
    requires Back(ts, use1)
    requires p < |procs0| && procs0[p].state.USED? && procs0[p].pagetable == None
    requires (if kind.Trapframe? then procs0[p].trapframe else procs0[p].usyscall) == None
    requires f < |use0| == |pages0| == |pages1| && use0[f].Free? && use1 == use0[f := ProcPage(p, kind)]
    requires pages1 == pages0[f := pages1[f]]
    requires procs1 == procs0[p := if kind.Trapframe? then procs0[p].(trapframe := Some(f))
                              else procs0[p].(usyscall := Some(f))]
    ensures Inv(ts, use1, procs1, owner, trampoline)
    ensures forall root: nat :: Others(ts, use0, pages0, ts, use1, pages1, root, Some(p))
    ensures Pids(pages0, procs0) ==> Pids(pages1, procs1)
  {
    hide Leaf, Others, SpaceOk;
    forall root: nat
      ensures Others(ts, use0, pages0, ts, use1, pages1, root, Some(p))
    {
      OneFrame(ts, use0, pages0, use1, pages1, f, root, p);
    }
    var root := |use0|;
    SlotAt(ts, use0, procs0, owner, trampoline, p);
    NoSpace(ts, use1, root);
    forall g | 0 <= g < |use1| && Belongs(use1[g], root, Some(p))
      ensures Accounted(use1, g, procs1, owner)
    {
      assert !Belongs(use1[g], root, None);
      assert Accounted(use0, g, procs0, owner);
    }
    InvStep(ts, use0, pages0, procs0, owner, ts, use1, pages1, procs1, owner, trampoline, root, p, procs1[p]);
    if Pids(pages0, procs0) {
      forall q | 0 <= q < |procs1|
        ensures HoldsPid(pages1, procs1[q])
      {
        assert HoldsPid(pages0, procs0[q]);
      }
    }
  }

  lemma UnaffectedNot(ts: Tables, use: seq<Use>, pages: seq<PageBytes>)
    requires |use| == |pages|
    ensures Unaffected(ts, use, pages, ts, use, pages)
  {
  }

  /** A slot changes in other fields than those for memory. */
  lemma Relabelled(ts: Tables, use: seq<Use>, pages: seq<PageBytes>, procs0: seq<Proc>, owner: seq<nat>,
                   procs1: seq<Proc>, trampoline: nat, p: nat, pr: Proc)
    requires Inv(ts, use, procs0, owner, trampoline) && p < |procs0| && procs1 == procs0[p := pr]
    requires pr == procs0[p].(state := pr.state, pid := pr.pid, parent := pr.parent, xstate := pr.xstate)
    requires SlotOk(ts, use, owner, trampoline, p, pr)
    ensures Inv(ts, use, procs1, owner, trampoline)
    ensures Pids(pages, procs0) && HoldsPid(pages, pr) ==> Pids(pages, procs1)
  {
    hide Leaf, SpaceOk;
    forall f | 0 <= f < |use|
      ensures Accounted(use, f, procs1, owner)
    {
      assert Accounted(use, f, procs0, owner);
    }
    if Pids(pages, procs0) && HoldsPid(pages, pr) {
      forall q | 0 <= q < |procs1|
        ensures HoldsPid(pages, procs1[q])
      {
        assert HoldsPid(pages, procs0[q]);
      }
    }
  }

  /** A slot with its two frames gets a fresh address space. */
  lemma SpaceGiven(ts0: Tables, use0: seq<Use>, pages0: seq<PageBytes>, procs0: seq<Proc>, owner0: seq<nat>,
                   ts1: Tables, use1: seq<Use>, pages1: seq<PageBytes>, procs1: seq<Proc>, owner1: seq<nat>,
                   trampoline: nat, root: nat, p: nat)
    requires Inv(ts0, use0, procs0, owner0, trampoline) && p < |procs0| && procs0[p].pagetable == None
    requires procs0[p].trapframe.Some? && procs0[p].usyscall.Some? && procs0[p].state.USED? && procs0[p].sz == 0
    requires Others(ts0, use0, pages0, ts1, use1, pages1, root, None) && root < |use0| && use0[root].Free?
    requires IsRoot(use1, root)
    requires Owns(ts1, use1, root, 0)
    requires Fixed(ts1, root, trampoline, procs0[p].trapframe.value, procs0[p].usyscall.value)
    requires procs1 == procs0[p := procs0[p].(pagetable := Some(root))] && owner1 == owner0[root := p]
    ensures Inv(ts1, use1, procs1, owner1, trampoline)
    ensures Pids(pages0, procs0) && HoldsPid(pages0, procs1[p]) ==> Pids(pages1, procs1)
    ensures HoldsPid(pages0, procs1[p]) ==> HoldsPid(pages1, procs1[p])
  {
    hide Leaf, Owns, Fixed;
    OthersMore(ts0, use0, pages0, ts1, use1, pages1, root, Some(p));
    SlotAt(ts0, use0, procs0, owner0, trampoline, p);
    forall q | 0 <= q < |procs0| && q != p
      ensures procs0[q].pagetable != Some(root)
    {
      assert SlotOk(ts0, use0, owner0, trampoline, q, procs0[q]);
    }
    forall f | 0 <= f < |use1| && Belongs(use1[f], root, Some(p))
      ensures Accounted(use1, f, procs1, owner1)
    {
      assert Accounted(use0, f, procs0, owner0);
    }
    assert RoundUp(0) == 0;
    InvStep(ts0, use0, pages0, procs0, owner0, ts1, use1, pages1, procs1, owner1, trampoline, root, p, procs1[p]);
    if Pids(pages0, procs0) && HoldsPid(pages0, procs1[p]) {
      forall q | 0 <= q < |procs1|
        ensures HoldsPid(pages1, procs1[q])
      {
        assert HoldsPid(pages0, procs0[q]);
      }
    }
  }

  lemma PidWritten(ts: Tables, use: seq<Use>, pages0: seq<PageBytes>, procs: seq<Proc>, owner: seq<nat>,
                   pages1: seq<PageBytes>, trampoline: nat, p: nat)
    requires Inv(ts, use, procs, owner, trampoline) && p < |procs| && procs[p].pagetable == None
    requires procs[p].usyscall.Some?
    requires |pages0| == |use| && procs[p].usyscall.value < |use|
    requires var us := procs[p].usyscall.value; pages1 == pages0[us := Patch(pages0[us], 0, PidBytes(procs[p].pid))]
    ensures forall root: nat {:trigger Others(ts, use, pages0, ts, use, pages1, root, Some(p))} ::
            Others(ts, use, pages0, ts, use, pages1, root, Some(p))
    ensures forall root: nat :: HoldsPid(pages1, procs[p].(pagetable := Some(root)))
    ensures Pids(pages0, procs) ==> Pids(pages1, procs)
  {
  }

  /** What allocproc() hands out. */
  ghost predicate NewProc(pr: Proc, pid: nat)
  {
    && pr.pagetable.Some? && pr.trapframe.Some? && pr.usyscall.Some?
    && pr == BLANK.(state := USED, pid := pid, pagetable := pr.pagetable, trapframe := pr.trapframe,
                    usyscall := pr.usyscall)
  }

  lemma StillFree(ts0: Tables, use0: seq<Use>, pages0: seq<PageBytes>, ts1: Tables, use1: seq<Use>,
                  pages1: seq<PageBytes>, root: nat, none: nat, p: nat)
    requires Others(ts0, use0, pages0, ts1, use1, pages1, none, Some(p)) && root < |use1| && use1[root].Free?
    requires root != none
    ensures !IsRoot(use0, root)
  {
  }

  lemma SameUse(ts0: Tables, use: seq<Use>, pages0: seq<PageBytes>, ts1: Tables, pages1: seq<PageBytes>, root: nat)
    requires Others(ts0, use, pages0, ts1, use, pages1, root, None) && !IsRoot(use, root)
    requires forall f :: 0 <= f < |use| ==> !Belongs(use[f], root, None)
    ensures Unaffected(ts0, use, pages0, ts1, use, pages1)
  {
  }

  lemma UnaffectedInv(ts0: Tables, use0: seq<Use>, pages0: seq<PageBytes>, ts1: Tables, use1: seq<Use>,
                      pages1: seq<PageBytes>, procs: seq<Proc>, owner: seq<nat>, trampoline: nat)
    requires Unaffected(ts0, use0, pages0, ts1, use1, pages1) && Inv(ts0, use0, procs, owner, trampoline)
    ensures Inv(ts1, use1, procs, owner, trampoline) && (Pids(pages0, procs) ==> Pids(pages1, procs))
  {
    hide Leaf, SlotOk;
    OthersIfUnaffected(ts0, use0, pages0, ts1, use1, pages1, |use0|);
    forall q | 0 <= q < |procs|
      ensures SlotOk(ts1, use1, owner, trampoline, q, procs[q])
      ensures HoldsPid(pages0, procs[q]) ==> HoldsPid(pages1, procs[q])
    {
      SlotBounds(ts0, use0, owner, trampoline, q, procs[q]);
      SlotKept(ts0, use0, pages0, ts1, use1, pages1, owner, owner, trampoline, |use0|, None, q, procs[q]);
    }
    if Pids(pages0, procs) {
      forall q | 0 <= q < |procs|
        ensures HoldsPid(pages1, procs[q])
      {
        assert HoldsPid(pages0, procs[q]);
      }
    }
  }

  lemma SlotBounds(ts: Tables, use: seq<Use>, owner: seq<nat>, trampoline: nat, p: nat, pr: Proc)
    requires SlotOk(ts, use, owner, trampoline, p, pr)
    ensures pr.pagetable != Some(|use|)
  {
  }

  lemma OthersIfUnaffected(ts0: Tables, use0: seq<Use>, pages0: seq<PageBytes>, ts1: Tables, use1: seq<Use>,
                           pages1: seq<PageBytes>, root: nat)
    requires Unaffected(ts0, use0, pages0, ts1, use1, pages1)
    ensures Others(ts0, use0, pages0, ts1, use1, pages1, root, None)
  {
  }

  /** The process's own user memory changed, and nothing else. */
  lemma Resized(ts0: Tables, use0: seq<Use>, pages0: seq<PageBytes>, procs0: seq<Proc>, owner: seq<nat>,
                ts1: Tables, use1: seq<Use>, pages1: seq<PageBytes>, procs1: seq<Proc>, trampoline: nat, root: nat, p:
                nat, sz: nat)
    requires Inv(ts0, use0, procs0, owner, trampoline) && p < |procs0| && procs0[p].pagetable == Some(root)
    requires Others(ts0, use0, pages0, ts1, use1, pages1, root, None)
    requires IsRoot(use1, root) && Owns(ts1, use1, root, RoundUp(sz))
    requires forall w :: USERTOP <= w < MAXVPN ==> Leaf(ts1, root, w) == Leaf(ts0, root, w)
    requires procs1 == procs0[p := procs0[p].(sz := sz)]
    ensures Inv(ts1, use1, procs1, owner, trampoline)
    ensures Pids(pages0, procs0) ==> Pids(pages1, procs1)
    ensures HoldsPid(pages0, procs0[p]) ==> HoldsPid(pages1, procs1[p])
  {
    hide Leaf, Owns;
    OthersMore(ts0, use0, pages0, ts1, use1, pages1, root, Some(p));
    SlotAt(ts0, use0, procs0, owner, trampoline, p);
    forall f | 0 <= f < |use1| && Belongs(use1[f], root, Some(p))
      ensures Accounted(use1, f, procs1, owner)
    {
      assert Accounted(use0, f, procs0, owner);
    }
    InvStep(ts0, use0, pages0, procs0, owner, ts1, use1, pages1, procs1, owner, trampoline, root, p, procs1[p]);
    if Pids(pages0, procs0) {
      forall q | 0 <= q < |procs1|
        ensures HoldsPid(pages1, procs1[q])
      {
        assert HoldsPid(pages0, procs0[q]);
      }
    }
  }

  lemma FixedKept(ts0: Tables, use0: seq<Use>, ts1: Tables, root: nat, lo: nat, hi: nat)
    requires IsRoot(use0, root) && OnlyPages(ts0, use0, ts1, root, lo, hi) && hi <= USERTOP
    ensures forall w :: USERTOP <= w < MAXVPN ==> Leaf(ts1, root, w) == Leaf(ts0, root, w)
  {
  }

  lemma OwnsBounded(ts: Tables, use: seq<Use>, root: nat, n: nat)
    requires Owns(ts, use, root, n)
    ensures n <= USERTOP
  {
  }

  /** Page w of root is as it was, entry and contents. */
  ghost predicate PageKept(ts0: Tables, pages0: seq<PageBytes>, ts1: Tables, pages1: seq<PageBytes>, root: nat, w: nat)
  {
    var p := Leaf(ts0, root, w);
    Leaf(ts1, root, w) == p && p.ppn < |pages0| == |pages1| && pages1[p.ppn] == pages0[p.ppn]
  }

  lemma GainedKeeps(ts0: Tables, use0: seq<Use>, pages0: seq<PageBytes>, ts1: Tables, use1: seq<Use>,
                    pages1: seq<PageBytes>, root: nat, lo: nat, hi: nat)
    requires IsRoot(use0, root) && Owns(ts0, use0, root, lo)
    requires Gained(use0, pages0, use1, pages1, root, lo, hi) && OnlyPages(ts0, use0, ts1, root, lo, hi)
    ensures forall w :: 0 <= w < lo ==> PageKept(ts0, pages0, ts1, pages1, root, w)
  {
    hide Leaf;
    forall w | 0 <= w < lo
      ensures PageKept(ts0, pages0, ts1, pages1, root, w)
    {
      assert OwnPage(ts0, use0, root, w);
    }
  }

  lemma ReleasedKeeps(ts0: Tables, use0: seq<Use>, pages0: seq<PageBytes>, ts1: Tables, use1: seq<Use>,
                      pages1: seq<PageBytes>, root: nat, lo: nat, hi: nat)
    requires IsRoot(use0, root) && Owns(ts0, use0, root, hi) && lo <= hi
    requires use1 == Released(use0, root, lo, hi) && SamePages(use0, pages0, use1, pages1)
    requires OnlyPages(ts0, use0, ts1, root, lo, hi)
    ensures forall w :: 0 <= w < lo ==> PageKept(ts0, pages0, ts1, pages1, root, w)
  {
    hide Leaf;
    forall w | 0 <= w < lo
      ensures PageKept(ts0, pages0, ts1, pages1, root, w)
    {
      assert OwnPage(ts0, use0, root, w);
    }
  }

  /** sz + n in 64-bit unsigned arithmetic. */
  function Added64(sz: nat, n: int): nat
    requires sz < MAX64 && -MAX64 < n
  {
    if sz + n < 0 then sz + n + MAX64 else sz + n
  }

  const MAX64 := 0x1_0000_0000_0000_0000

  /** What copying the user memory of process p into a new address space takes. */
  lemma ForkFrames(ts: Tables, use: seq<Use>, procs: seq<Proc>, owner: seq<nat>, trampoline: nat, p: nat, root: nat)
    requires Inv(ts, use, procs, owner, trampoline) && p < |procs| && procs[p].pagetable.Some? && |use| <= NFRAMES
    requires TreeFor(ts, root, 0)
    ensures FramesFor(ts, root, 0, RoundUp(procs[p].sz)) == UserFrames(RoundUp(procs[p].sz))
  {
    hide Leaf, TreeFor, FramesFor, RoundUp;
    SlotAt(ts, use, procs, owner, trampoline, p);
    PagesFit(ts, use, procs[p].pagetable.value, RoundUp(procs[p].sz));
    TreeFrames(ts, root, 0, RoundUp(procs[p].sz));
    assert UserFrames(0) == 0;
  }

  lemma SizeBound(ts: Tables, use: seq<Use>, root: nat, sz: nat)
    requires Owns(ts, use, root, RoundUp(sz))
    ensures sz <= USERTOP * PGSIZE < MAX64
  {
  }

  lemma KeptAll(ts: Tables, use: seq<Use>, pages: seq<PageBytes>, root: nat, n: nat)
    requires Owns(ts, use, root, n) && |pages| == |use|
    ensures forall w :: 0 <= w < n ==> PageKept(ts, pages, ts, pages, root, w)
  {
    hide Leaf;
    forall w | 0 <= w < n
      ensures PageKept(ts, pages, ts, pages, root, w)
    {
      assert OwnPage(ts, use, root, w);
    }
  }

  /** A 64-bit number as stored in memory. */
  function Word64(n: nat): (s: seq<Byte>)
    ensures |s| == 8
  {
    PidBytes(n) + PidBytes(n / 0x1_0000_0000)
  }

  const TRAPFRAME_SIZE := 288
  const TRAPFRAME_EPC := 24
  const TRAPFRAME_SP := 48
  const TRAPFRAME_A0 := 112

  /** The child's trapframe: the parent's, but with 0 in register a0. */
  function ForkedFrame(child: PageBytes, parent: PageBytes): PageBytes
  {
    Patch(Patch(child, 0, parent[..TRAPFRAME_SIZE]), TRAPFRAME_A0, [0, 0, 0, 0, 0, 0, 0, 0])
  }

  /** The child returns to user code with the parent's registers, except that a0 is 0. */
  ghost predicate SameRegisters(parent: PageBytes, child: PageBytes)
  {
    forall i :: 0 <= i < TRAPFRAME_SIZE ==>
      child[i] == if TRAPFRAME_A0 <= i < TRAPFRAME_A0 + 8 then 0 else parent[i]
  }

  lemma FrameForked(child: PageBytes, parent: PageBytes)
    ensures SameRegisters(parent, ForkedFrame(child, parent))
  {
  }

  const USER_ALL := Perm(true, true, true, true, false, false, 0)

  /** uvmfirst(): the first user page, with a program of less than a page. */
  function FirstPage(code: seq<Byte>): PageBytes
    requires |code| < PGSIZE
  {
    Patch(Filled(0), 0, code)
  }

  /** The registers with which the first process starts. */
  function FirstFrame(page: PageBytes): PageBytes
  {
    Patch(Patch(page, TRAPFRAME_EPC, Word64(0)), TRAPFRAME_SP, Word64(PGSIZE))
  }

  ghost predicate FirstStarts(page: PageBytes)
  {
    page[TRAPFRAME_EPC..TRAPFRAME_EPC + 8] == Word64(0) && page[TRAPFRAME_SP..TRAPFRAME_SP + 8] == Word64(PGSIZE)
  }

  lemma FrameFirst(page: PageBytes)
    ensures FirstStarts(FirstFrame(page))
  {
  }

  lemma FirstNeeds(ts: Tables, root: nat)
    requires TreeFor(ts, root, 0)
    ensures Missing(ts, root, 0) == 2
  {
  }

  lemma FirstOwned(ts: Tables, use: seq<Use>, root: nat)
    requires Owns(ts, use, root, RoundUp(PGSIZE))
    ensures OwnPage(ts, use, root, 0)
  {
    hide Leaf;
  }

  /** Storing into a frame of the process changes no user page and no usyscall page. */
  lemma FrameStored(ts: Tables, use: seq<Use>, pages0: seq<PageBytes>, procs: seq<Proc>, owner: seq<nat>,
                    pages1: seq<PageBytes>, trampoline: nat, p: nat, root: nat)
    requires Inv(ts, use, procs, owner, trampoline) && p < |procs| && procs[p].trapframe.Some?
    requires |pages0| == |use| && procs[p].trapframe.value < |use| && |pages1| == |pages0|
    requires pages1 == pages0[procs[p].trapframe.value := pages1[procs[p].trapframe.value]]
    ensures Others(ts, use, pages0, ts, use, pages1, root, Some(p))
    ensures forall f :: 0 <= f < |use| && use[f].Page? ==> pages1[f] == pages0[f]
    ensures forall q :: 0 <= q < |procs| && HoldsPid(pages0, procs[q]) ==> HoldsPid(pages1, procs[q])
  {
  }

  lemma CopiedStill(ts: Tables, use: seq<Use>, pages0: seq<PageBytes>, pages1: seq<PageBytes>, parent: nat, child: nat,
                    n: nat)
    requires forall w :: 0 <= w < n ==> Copied(ts, pages0, parent, child, w)
    requires Owns(ts, use, parent, n) && Owns(ts, use, child, n) && |pages1| == |pages0| == |use|
    requires forall f :: 0 <= f < |use| && use[f].Page? ==> pages1[f] == pages0[f]
    ensures forall w :: 0 <= w < n ==> Copied(ts, pages1, parent, child, w)
  {
    hide Leaf;
    forall w | 0 <= w < n
      ensures Copied(ts, pages1, parent, child, w)
    {
      assert Copied(ts, pages0, parent, child, w) && OwnPage(ts, use, parent, w) && OwnPage(ts, use, child, w);
    }
  }

  /** In a process's address space, user pages lie in memory and share no frames. */
  lemma SpaceUserOk(ts: Tables, use: seq<Use>, pages: seq<PageBytes>, owner: seq<nat>, trampoline: nat, p: nat,
                    pr: Proc)
    requires SlotOk(ts, use, owner, trampoline, p, pr) && pr.pagetable.Some? && |pages| == |use|
    ensures UserOk(ts, pages, pr.pagetable.value)
    ensures forall w :: Translate(ts, pr.pagetable.value, w).Some? ==>
              var f := Translate(ts, pr.pagetable.value, w).value;
              f < |use| && use[f] == if w == USYSCALL then ProcPage(p, Usyscall) else Page(pr.pagetable.value, w)
    ensures Translate(ts, pr.pagetable.value, USYSCALL) == pr.usyscall
  {
    hide Leaf;
    var root := pr.pagetable.value;
    forall w: nat | Translate(ts, root, w).Some?
      ensures var f := Translate(ts, root, w).value;
              f < |use| && use[f] == if w == USYSCALL then ProcPage(p, Usyscall) else Page(root, w)
    {
      if w < RoundUp(pr.sz) {
        assert OwnPage(ts, use, root, w);
      }
    }
  }

  /** A write to user memory changes frames of the process only. */
  lemma WrittenOthers(ts: Tables, use: seq<Use>, pages0: seq<PageBytes>, pages1: seq<PageBytes>, owner: seq<nat>,
                      trampoline: nat, p: nat, pr: Proc, va: nat, src: seq<Byte>, n: nat)
    requires SlotOk(ts, use, owner, trampoline, p, pr) && pr.pagetable.Some? && |pages0| == |use|
    requires UserOk(ts, pages0, pr.pagetable.value) && n <= |src|
    requires Written(ts, pages0, pages1, pr.pagetable.value, va, src, n)
    ensures Others(ts, use, pages0, ts, use, pages1, pr.pagetable.value, Some(p))
  {
    hide Leaf, Translate, PageNo, Offset;
    SpaceUserOk(ts, use, pages0, owner, trampoline, p, pr);
  }

  /** The first address of the usyscall page. */
  const USYSCALL_VA := USYSCALL * PGSIZE

  /** Each byte that a write of n bytes at va puts over the pid is that byte of the pid. */
  ghost predicate SparesPid(va: nat, src: seq<Byte>, n: nat, pid: nat)
    requires n <= |src|
  {
    forall i :: 0 <= i < 4 && va <= USYSCALL_VA + i < va + n ==> src[USYSCALL_VA + i - va] == PidBytes(pid)[i]
  }

  /** When a write to user memory keeps the pid in the usyscall page. That the page is not writable for
      user code does not prevent the write. */
  lemma PidAfterWrite(ts: Tables, use: seq<Use>, pages0: seq<PageBytes>, pages1: seq<PageBytes>, owner: seq<nat>,
                      trampoline: nat, p: nat, pr: Proc, va: nat, src: seq<Byte>, n: nat)
    requires SlotOk(ts, use, owner, trampoline, p, pr) && pr.pagetable.Some? && |pages0| == |use|
    requires HoldsPid(pages0, pr)
    requires UserOk(ts, pages0, pr.pagetable.value) && n <= |src|
    requires Written(ts, pages0, pages1, pr.pagetable.value, va, src, n)
    ensures HoldsPid(pages1, pr) <==> SparesPid(va, src, n, pr.pid)
  {
    hide Leaf, Translate, PidBytes;
    var root, us := pr.pagetable.value, pr.usyscall.value;
    SpaceUserOk(ts, use, pages0, owner, trampoline, p, pr);
    forall i | 0 <= i < 4
      ensures pages1[us][..4][i] == if va <= USYSCALL_VA + i < va + n then src[USYSCALL_VA + i - va]
              else PidBytes(pr.pid)[i]
    {
      assert PageNo(USYSCALL_VA + i) == USYSCALL && Offset(USYSCALL_VA + i) == i;
      assert Mapped(ts, root, USYSCALL_VA + i);
      assert pages0[us][..4][i] == PidBytes(pr.pid)[i];
      assert ByteAt(ts, pages1, root, USYSCALL_VA + i) == pages1[us][i];
    }
    assert HoldsPid(pages1, pr) <==> forall i :: 0 <= i < 4 ==> pages1[us][..4][i] == PidBytes(pr.pid)[i];
  }

  /** The pid can be lost: the page is open to copyout(), and anything but the pid written there replaces it. */
  lemma PidOverwritten(ts: Tables, use: seq<Use>, pages0: seq<PageBytes>, pages1: seq<PageBytes>, owner: seq<nat>,
                       trampoline: nat, p: nat, pr: Proc, src: seq<Byte>)
    requires SlotOk(ts, use, owner, trampoline, p, pr) && pr.pagetable.Some? && |pages0| == |use|
    requires HoldsPid(pages0, pr)
    requires UserOk(ts, pages0, pr.pagetable.value) && |src| == 4 && src != PidBytes(pr.pid)
    ensures forall a :: USYSCALL_VA <= a < USYSCALL_VA + 4 ==> Mapped(ts, pr.pagetable.value, a)
    ensures Written(ts, pages0, pages1, pr.pagetable.value, USYSCALL_VA, src, 4) ==> !HoldsPid(pages1, pr)
  {
    hide Leaf, Translate, PidBytes, Written, HoldsPid;
    SpaceUserOk(ts, use, pages0, owner, trampoline, p, pr);
    if Written(ts, pages0, pages1, pr.pagetable.value, USYSCALL_VA, src, 4) {
      PidAfterWrite(ts, use, pages0, pages1, owner, trampoline, p, pr, USYSCALL_VA, src, 4);
      var i := Difference(src, PidBytes(pr.pid));
      assert USYSCALL_VA <= USYSCALL_VA + i < USYSCALL_VA + 4
          && src[USYSCALL_VA + i - USYSCALL_VA] != PidBytes(pr.pid)[i];
    }
    forall a | USYSCALL_VA <= a < USYSCALL_VA + 4
      ensures Mapped(ts, pr.pagetable.value, a)
    {
      assert PageNo(a) == USYSCALL;
    }
  }

  lemma Difference(a: seq<Byte>, b: seq<Byte>) returns (i: nat)
    requires |a| == |b| && a != b
    ensures i < |a| && a[i] != b[i]
  {
    i :| i < |a| && a[i] != b[i];
  }

  lemma PidAt(pages: seq<PageBytes>, procs: seq<Proc>, p: nat)
    requires p < |procs|
    ensures Pids(pages, procs) ==> HoldsPid(pages, procs[p])
  {
  }

  lemma OtherPids(ts: Tables, use: seq<Use>, pages0: seq<PageBytes>, pages1: seq<PageBytes>, procs: seq<Proc>,
                  owner: seq<nat>, trampoline: nat, p: nat)
    requires Inv(ts, use, procs, owner, trampoline) && p < |procs| && procs[p].pagetable.Some?
    requires Others(ts, use, pages0, ts, use, pages1, procs[p].pagetable.value, Some(p))
    ensures forall q :: 0 <= q < |procs| && q != p && HoldsPid(pages0, procs[q]) ==> HoldsPid(pages1, procs[q])
  {
  }

  /** One pass of wait() over the table ends in one of these. */
  datatype WaitOutcome = Reaped(child: nat, pid: nat) | BadAddress | NoChildren | MustSleep

  predicate ZombieChild(procs: seq<Proc>, p: nat, q: nat)
    requires q < |procs|
  {
    procs[q].parent == Some(p) && procs[q].state.ZOMBIE?
  }

  /** The status is at address addr, if one was given. */
  ghost predicate Stored(ts: Tables, pages: seq<PageBytes>, root: nat, addr: nat, status: nat)
  {
    UserOk(ts, pages, root) && (addr != 0 ==> Fetched(ts, pages, root, addr, PidBytes(status)))
  }

  /** User memory of root reads the same in both states, except for the addresses [lo, hi). */
  ghost predicate KeptOutside(ts0: Tables, pages0: seq<PageBytes>, ts1: Tables, pages1: seq<PageBytes>, root: nat,
                              lo: nat, hi: nat)
  {
    && UserOk(ts0, pages0, root) && UserOk(ts1, pages1, root)
    && forall a: nat :: Mapped(ts0, root, a) ==>
         Mapped(ts1, root, a) && (lo <= a < hi || ByteAt(ts1, pages1, root, a) == ByteAt(ts0, pages0, root, a))
  }

  lemma KeptOutsideThen(ts0: Tables, pages0: seq<PageBytes>, ts1: Tables, pages1: seq<PageBytes>, ts2: Tables,
                        pages2: seq<PageBytes>, root: nat, lo: nat, hi: nat)
    requires KeptOutside(ts0, pages0, ts1, pages1, root, lo, hi) && KeptOutside(ts1, pages1, ts2, pages2, root, 0, 0)
    ensures KeptOutside(ts0, pages0, ts2, pages2, root, lo, hi)
  {
    hide Mapped, ByteAt, UserOk;
  }

  lemma WrittenKept(ts: Tables, pages0: seq<PageBytes>, pages1: seq<PageBytes>, root: nat, va: nat, src: seq<Byte>,
                    n: nat)
    requires UserOk(ts, pages0, root) && UserOk(ts, pages1, root) && n <= |src|
    requires Written(ts, pages0, pages1, root, va, src, n)
    ensures KeptOutside(ts, pages0, ts, pages1, root, va, va + |src|)
  {
    hide Translate, PageNo, Offset;
  }

  /** User memory of a process survives the freeing of another one. */
  lemma BytesKept(ts0: Tables, use0: seq<Use>, pages0: seq<PageBytes>, ts1: Tables, use1: seq<Use>,
                  pages1: seq<PageBytes>, owner: seq<nat>, trampoline: nat, root: nat, c: nat, p: nat, pr: Proc)
    requires SlotOk(ts0, use0, owner, trampoline, p, pr) && pr.pagetable.Some? && pr.pagetable != Some(root) && p != c
    requires Others(ts0, use0, pages0, ts1, use1, pages1, root, Some(c))
    requires UserOk(ts0, pages0, pr.pagetable.value) && UserOk(ts1, pages1, pr.pagetable.value)
    ensures KeptOutside(ts0, pages0, ts1, pages1, pr.pagetable.value, 0, 0)
  {
    hide Leaf, PageNo, Offset;
    SpaceUserOk(ts0, use0, pages0, owner, trampoline, p, pr);
  }

  lemma StoredStill(ts0: Tables, pages0: seq<PageBytes>, ts1: Tables, pages1: seq<PageBytes>, root: nat, addr: nat,
                    status: nat)
    requires KeptOutside(ts0, pages0, ts1, pages1, root, 0, 0)
    requires addr != 0 ==> Fetched(ts0, pages0, root, addr, PidBytes(status))
    ensures Stored(ts1, pages1, root, addr, status)
  {
    hide PidBytes, Translate, PageNo, Offset;
  }

  lemma BlankPid(pages: seq<PageBytes>)
    ensures HoldsPid(pages, BLANK)
  {
  }

  /** wait() with no address for the status. */
  lemma NothingStored(ts: Tables, use: seq<Use>, pages: seq<PageBytes>, procs: seq<Proc>, owner: seq<nat>,
                      trampoline: nat, p: nat, status: nat)
    requires Inv(ts, use, procs, owner, trampoline) && p < |procs| && procs[p].pagetable.Some? && |pages| == |use|
    ensures Others(ts, use, pages, ts, use, pages, procs[p].pagetable.value, Some(p))
    ensures KeptOutside(ts, pages, ts, pages, procs[p].pagetable.value, 0, 0)
    ensures IntSpares(0, status, procs[p].pid)
  {
    hide SlotOk;
    SlotAt(ts, use, procs, owner, trampoline, p);
    OthersSame(ts, use, pages, procs[p].pagetable.value, Some(p));
    SpaceUserOk(ts, use, pages, owner, trampoline, p, procs[p]);
  }

  /** The page below the usyscall page is never mapped: user memory does not reach that far. */
  lemma GapBelow(ts: Tables, use: seq<Use>, owner: seq<nat>, trampoline: nat, p: nat, pr: Proc, pages: seq<PageBytes>)
    requires SlotOk(ts, use, owner, trampoline, p, pr) && pr.pagetable.Some? && |use| <= NFRAMES && |pages| == |use|
    ensures Translate(ts, pr.pagetable.value, USYSCALL - 1) == None
  {
    hide Leaf;
    PagesFit(ts, use, pr.pagetable.value, RoundUp(pr.sz));
  }

  /** Storing a status at addr leaves the pid in the usyscall page: addr is below that page, or what falls
      on the pid is the pid. */
  predicate IntSpares(addr: nat, status: nat, pid: nat)
  {
    addr < USYSCALL_VA
    || forall i :: 0 <= i < 4 && addr <= USYSCALL_VA + i < addr + 4 ==>
        PidBytes(status)[USYSCALL_VA + i - addr] == PidBytes(pid)[i]
  }

  /** copyout() of a status cannot reach the pid from below, and stores all of it on the usyscall page. */
  lemma IntReach(ts: Tables, use: seq<Use>, pages0: seq<PageBytes>, pages1: seq<PageBytes>, owner: seq<nat>,
                    trampoline: nat, p: nat, pr: Proc, addr: nat, status: nat, n: nat)
    requires SlotOk(ts, use, owner, trampoline, p, pr) && pr.pagetable.Some? && |use| <= NFRAMES && |pages0| == |use|
    requires UserOk(ts, pages0, pr.pagetable.value) && n <= 4
    requires Written(ts, pages0, pages1, pr.pagetable.value, addr, PidBytes(status), n)
    requires n < 4 ==> !Mapped(ts, pr.pagetable.value, addr + n)
    ensures SparesPid(addr, PidBytes(status), n, pr.pid) <==> IntSpares(addr, status, pr.pid)
    ensures n < 4 ==> IntSpares(addr, status, pr.pid)
  {
    hide Leaf, Translate, PidBytes, Offset;
    SpaceUserOk(ts, use, pages0, owner, trampoline, p, pr);
    GapBelow(ts, use, owner, trampoline, p, pr, pages0);
    var root := pr.pagetable.value;
    if addr < USYSCALL_VA {
      assert addr + n > USYSCALL_VA ==> Mapped(ts, root, USYSCALL_VA - 1);
      assert PageNo(USYSCALL_VA - 1) == USYSCALL - 1;
    } else if addr < USYSCALL_VA + 4 {
      assert PageNo(addr + n) == USYSCALL;
    }
  }

  /** The same entry, but for the accessed bit and the bits that xv6 leaves alone. */
  predicate Marked(p: Pte, q: Pte)
  {
    q.v == p.v && q.ppn == p.ppn && q.perm.Core() == p.perm.Core() && (!p.v ==> q == p)
  }

  /** No more than such bits of valid entries have changed, in any address space. */
  ghost predicate Marks(ts0: Tables, use: seq<Use>, ts1: Tables)
  {
    forall q, w :: IsRoot(use, q) && 0 <= w < MAXVPN ==> Marked(Leaf(ts0, q, w), Leaf(ts1, q, w))
  }

  /** What the hardware records about accesses, and what pgaccess() clears, matters to no address space: the
      process table stays in order, and all user addresses lead where they did. */
  lemma MarksKeep(ts0: Tables, use: seq<Use>, ts1: Tables, procs: seq<Proc>, owner: seq<nat>, trampoline: nat)
    requires Marks(ts0, use, ts1) && Back(ts0, use) && Inv(ts0, use, procs, owner, trampoline)
    ensures Back(ts1, use) && Inv(ts1, use, procs, owner, trampoline)
    ensures forall q, n :: IsRoot(use, q) && Owns(ts0, use, q, n) ==> Owns(ts1, use, q, n)
    ensures forall q, w :: IsRoot(use, q) ==> Translate(ts1, q, w) == Translate(ts0, q, w)
  {
    hide Leaf, Fixed, Accounted;
    forall f | 0 <= f < |use| && use[f].Page?
      ensures MappedAt(ts1, use, f)
    {
      assert MappedAt(ts0, use, f);
    }
    forall q, n | IsRoot(use, q) && Owns(ts0, use, q, n)
      ensures Owns(ts1, use, q, n)
    {
      OwnsMarked(ts0, use, ts1, q, n);
    }
    forall p | 0 <= p < |procs|
      ensures SlotOk(ts1, use, owner, trampoline, p, procs[p])
    {
      assert SlotOk(ts0, use, owner, trampoline, p, procs[p]);
      if procs[p].pagetable.Some? {
        FixedMarked(ts0, use, ts1, procs[p].pagetable.value, trampoline, procs[p].trapframe.value,
                    procs[p].usyscall.value);
      }
    }
  }

  lemma OwnsMarked(ts0: Tables, use: seq<Use>, ts1: Tables, root: nat, n: nat)
    requires Marks(ts0, use, ts1) && IsRoot(use, root) && Owns(ts0, use, root, n)
    ensures Owns(ts1, use, root, n)
  {
    hide Leaf;
    forall w | 0 <= w < n
      ensures OwnPage(ts1, use, root, w)
    {
      assert OwnPage(ts0, use, root, w);
    }
  }

  lemma FixedMarked(ts0: Tables, use: seq<Use>, ts1: Tables, root: nat, trampoline: nat, tf: nat, us: nat)
    requires Marks(ts0, use, ts1) && IsRoot(use, root) && Fixed(ts0, root, trampoline, tf, us)
    ensures Fixed(ts1, root, trampoline, tf, us)
  {
    hide Leaf;
  }

  /** Frame f is part of what process p owns. */
  ghost predicate OwnedBy(use: seq<Use>, f: nat, procs: seq<Proc>, p: nat)
    requires f < |use| && p < |procs|
  {
    Belongs(use[f], RootOf(procs[p], |use|), Some(p))
  }

  /** Every frame is free, the kernel's own, or owned by exactly one process in the table. So when no
      process is left, all that the kernel does not keep for itself is free again. */
  lemma OneOwner(ts: Tables, use: seq<Use>, procs: seq<Proc>, owner: seq<nat>, trampoline: nat, f: nat)
    requires Wf(ts, use) && Back(ts, use) && Inv(ts, use, procs, owner, trampoline) && f < |use|
    ensures use[f].Free? || use[f].Kernel? || exists p ::
            0 <= p < |procs| && !procs[p].state.UNUSED? && OwnedBy(use, f, procs, p)
    ensures use[f].Free? || use[f].Kernel? ==> forall p :: 0 <= p < |procs| ==> !OwnedBy(use, f, procs, p)
    ensures forall p, q :: 0 <= p < |procs| && 0 <= q < |procs| ==>
              OwnedBy(use, f, procs, p) && OwnedBy(use, f, procs, q) ==> p == q
  {
    hide Leaf, SpaceOk, Accounted;
    forall p, q | 0 <= p < |procs| && 0 <= q < |procs| && OwnedBy(use, f, procs, p) && OwnedBy(use, f, procs, q)
      ensures p == q
    {
      SlotAt(ts, use, procs, owner, trampoline, p);
    }
    if use[f].Table? || use[f].Page? {
      var root := use[f].root;
      if use[f].Table? {
        assert NodeOk(ts, use, f);
      } else {
        assert MappedAt(ts, use, f);
      }
      RootOwner(ts, use, procs, owner, trampoline, root);
      assert OwnedBy(use, f, procs, owner[root]);
    } else if use[f].ProcPage? {
      PageOwner(ts, use, procs, owner, trampoline, f);
      assert OwnedBy(use, f, procs, use[f].p);
    }
  }

  lemma RootOwner(ts: Tables, use: seq<Use>, procs: seq<Proc>, owner: seq<nat>, trampoline: nat, root: nat)
    requires Inv(ts, use, procs, owner, trampoline) && IsRoot(use, root)
    ensures |owner| == |use| && owner[root] < |procs| && procs[owner[root]].pagetable == Some(root)
    ensures !procs[owner[root]].state.UNUSED?
  {
    hide Leaf, SpaceOk;
    assert Accounted(use, root, procs, owner);
    assert SlotOk(ts, use, owner, trampoline, owner[root], procs[owner[root]]);
  }

  lemma PageOwner(ts: Tables, use: seq<Use>, procs: seq<Proc>, owner: seq<nat>, trampoline: nat, f: nat)
    requires Inv(ts, use, procs, owner, trampoline) && f < |use| && use[f].ProcPage?
    ensures use[f].p < |procs| && !procs[use[f].p].state.UNUSED?
  {
    hide Leaf, SpaceOk;
    assert Accounted(use, f, procs, owner);
    assert SlotOk(ts, use, owner, trampoline, use[f].p, procs[use[f].p]);
  }
}
