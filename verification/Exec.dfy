/** Building a new program image and switching a process to it (kernel/exec.c). */
module Exec {
  import opened Common
  import opened Sv39
  import opened PageTable
  import opened FrameCount
  import opened VirtualMemory
  import opened AddressSpace
  import opened UserCopy
  import opened ProcMemory
  import opened Process

  /** A program header as read from the file: whether the read was complete, the header's fields, and
      what the file holds from the segment's offset on. */
  datatype Segment = Segment(whole: bool, load: bool, vaddr: nat, memsz: nat, filesz: nat, x: bool, w: bool,
                             data: seq<Byte>)

  /** loadseg() takes the size as a 32-bit number. */
  function Length(s: Segment): nat { s.filesz % 0x1_0000_0000 }

  /** PTE_R | PTE_U | flags2perm(flags) */
  function PermOf(s: Segment): Perm { Perm(true, s.w, s.x, true, false, false, 0) }

  /** The byte that the first n segments put at address a: the last of them that has one there, else 0. */
  function ImageByte(segs: seq<Segment>, n: nat, a: nat): Byte
    requires n <= |segs|
  {
    if n == 0 then 0
    else if segs[n - 1].load && segs[n - 1].vaddr <= a < segs[n - 1].vaddr + Length(segs[n - 1])
            && a - segs[n - 1].vaddr < |segs[n - 1].data| then segs[n - 1].data[a - segs[n - 1].vaddr]
    else ImageByte(segs, n - 1, a)
  }

  /** All of [0, top) is open to the user and holds what the first n segments say. */
  ghost predicate Loaded(ts: Tables, pages: seq<PageBytes>, root: nat, top: nat, segs: seq<Segment>, n: nat)
    requires n <= |segs|
  {
    && UserOk(ts, pages, root)
    && forall a :: 0 <= a < top ==> Mapped(ts, root, a) && ByteAt(ts, pages, root, a) == ImageByte(segs, n, a)
  }

  /** The segments so far lie below sz. */
  ghost predicate Below(segs: seq<Segment>, n: nat, sz: nat)
    requires n <= |segs|
  {
    forall i :: 0 <= i < n && segs[i].load ==> segs[i].vaddr + Length(segs[i]) <= sz
  }

  lemma {:induction false} ZeroAbove(segs: seq<Segment>, n: nat, sz: nat, a: nat)
    requires n <= |segs| && Below(segs, n, sz) && a >= sz
    ensures ImageByte(segs, n, a) == 0
  {
    if n > 0 {
      ZeroAbove(segs, n - 1, sz, a);
    }
  }

  /** The size of user memory after the first n segments: the highest end of a segment. */
  function SizeAfter(segs: seq<Segment>, n: nat): nat
    requires n <= |segs|
  {
    if n == 0 then 0
    else
      var sz, end := SizeAfter(segs, n - 1), segs[n - 1].vaddr + segs[n - 1].memsz;
      if segs[n - 1].load && end > sz then end else sz
  }

  /** exec() accepts segment i: its header could be read; and if it is to be loaded, it is no larger in the
      file than in memory, does not wrap around, is page-aligned, does not leave the program empty, and the
      file holds all of it. */
  predicate Accepted(segs: seq<Segment>, i: nat)
    requires i < |segs|
  {
    var s := segs[i];
    && s.whole
    && (s.load ==>
          && s.filesz <= s.memsz && s.vaddr + s.memsz < MAX64 && s.vaddr % PGSIZE == 0
          && SizeAfter(segs, i + 1) > 0 && Length(s) <= |s.data|)
  }

  predicate AllAccepted(segs: seq<Segment>)
  {
    forall i :: 0 <= i < |segs| ==> Accepted(segs, i)
  }

  lemma {:induction false} SizeMonotone(segs: seq<Segment>, n: nat, k: nat)
    requires n <= k <= |segs|
    ensures SizeAfter(segs, n) <= SizeAfter(segs, k)
  {
    if n < k {
      SizeMonotone(segs, n, k - 1);
    }
  }

  /** If the frames do not suffice for the first segments, they do not suffice for all. */
  lemma NotEnough(segs: seq<Segment>, n: nat)
    requires n <= |segs|
    ensures UserFrames(RoundUp(SizeAfter(segs, n))) <= UserFrames(RoundUp(SizeAfter(segs, |segs|)))
  {
    hide UserFrames, RoundUp;
    SizeMonotone(segs, n, |segs|);
    RoundUpMonotone(SizeAfter(segs, n), SizeAfter(segs, |segs|));
    UserFramesMonotone(RoundUp(SizeAfter(segs, n)), RoundUp(SizeAfter(segs, |segs|)));
  }

  // ---- loadseg() ----

  /** loadseg(): the segment's bytes go to the pages from va on; it fails if the file is too short. That
      all these pages are there is what rules out its panic. */
  method LoadSeg(m: Memory, root: nat, va: nat, data: seq<Byte>, sz: nat) returns (ok: bool, ghost done: nat)
    requires m.Valid() && UserOk(m.ts, m.pages, root) && va % PGSIZE == 0
    requires forall a :: va <= a < va + sz ==> Mapped(m.ts, root, a)
    requires sz + PGSIZE <= 0x1_0000_0000
    modifies m`pages
    ensures m.Valid() && UserOk(m.ts, m.pages, root)
    ensures done <= |data| && done <= sz && Written(m.ts, old(m.pages), m.pages, root, va, data, done)
    ensures ok <==> sz <= |data|
    ensures ok ==> done == sz
  {
    hide Wf, FreeOk, Translate, PageNo, Offset;
    ghost var pages0 := m.pages;
    var i := 0;
    while i < sz
      invariant 0 <= i && (i < sz ==> (va + i) % PGSIZE == 0)
      invariant m.Valid() && UserOk(m.ts, m.pages, root)
      invariant (i <= sz || i < sz + PGSIZE) && (if i < sz then i else sz) <= |data|
      invariant Written(m.ts, pages0, m.pages, root, va, data, if i < sz then i else sz)
    {
      assert Mapped(m.ts, root, va + i);
      var f := Translate(m.ts, root, PageNo(va + i)).value;
      var n := if sz - i < PGSIZE then sz - i else PGSIZE;
      var got := if |data| - i < n then |data| - i else n;
      ghost var pages1 := m.pages;
      Aligned(va + i);
      m.pages := m.pages[f := Patch(m.pages[f], 0, data[i..i + got])];
      PatchWrites(m.ts, pages0, pages1, m.pages, root, va, data, i, got);
      if got != n {
        return false, i + got;
      }
      i := i + PGSIZE;
    }
    return true, sz;
  }

  lemma Aligned(a: nat)
    ensures a % PGSIZE == 0 ==> Offset(a) == 0
  {
  }

  // ---- segments ----

  /** The address space under construction for process p: complete, with user memory [0, sz). */
  ghost predicate Building(m: Memory, owner: seq<nat>, trampoline: nat, p: nat, pr: Proc, sz: nat)
    reads m
  {
    && m.Valid() && Back(m.ts, m.use) && |m.use| <= NFRAMES && pr.pagetable.Some?
    && SlotOk(m.ts, m.use, owner, trampoline, p, pr.(sz := sz))
  }

  /** User memory has grown: the old part is as it was, the new part is zero. */
  lemma GrownLoaded(ts0: Tables, pages0: seq<PageBytes>, ts1: Tables, pages1: seq<PageBytes>, root: nat, lo: nat,
                    hi: nat, perm: Perm, segs: seq<Segment>, n: nat)
    requires n <= |segs| && Loaded(ts0, pages0, root, lo * PGSIZE, segs, n) && Below(segs, n, lo * PGSIZE) && perm.u
    requires hi <= MAXVPN
    requires UserOk(ts1, pages1, root)
    requires forall w :: 0 <= w < lo ==> PageKept(ts0, pages0, ts1, pages1, root, w)
    requires forall w :: lo <= w < hi ==> HasContents(ts1, pages1, root, w, Filled(0), perm)
    ensures Loaded(ts1, pages1, root, hi * PGSIZE, segs, n)
  {
    hide Leaf, ImageByte;
    forall a | 0 <= a < hi * PGSIZE
      ensures Mapped(ts1, root, a) && ByteAt(ts1, pages1, root, a) == ImageByte(segs, n, a)
    {
      Split(a);
      if a < lo * PGSIZE {
        assert Mapped(ts0, root, a) && PageKept(ts0, pages0, ts1, pages1, root, PageNo(a));
      } else {
        assert HasContents(ts1, pages1, root, PageNo(a), Filled(0), perm);
        ZeroAbove(segs, n, lo * PGSIZE, a);
      }
    }
  }

  /** A segment's bytes have been stored. */
  lemma StoredLoaded(ts: Tables, pages0: seq<PageBytes>, pages1: seq<PageBytes>, root: nat, top: nat,
                     segs: seq<Segment>, n: nat)
    requires n < |segs| && Loaded(ts, pages0, root, top, segs, n) && UserOk(ts, pages1, root)
    requires segs[n].load && Length(segs[n]) <= |segs[n].data|
    requires Written(ts, pages0, pages1, root, segs[n].vaddr, segs[n].data, Length(segs[n]))
    ensures Loaded(ts, pages1, root, top, segs, n + 1)
  {
  }

  /** uvmalloc() for the image: what is loaded stays loaded, and only the new address space changes. It
      fails for lack of frames, or because the image would be empty. */
  method Grow(m: Memory, root: nat, sz: nat, newsz: nat, perm: Perm, ghost owner: seq<nat>, ghost trampoline: nat,
              ghost p: nat, ghost pr: Proc, ghost segs: seq<Segment>, ghost n: nat) returns (r: nat)
    requires Building(m, owner, trampoline, p, pr, sz) && pr.pagetable == Some(root) && perm.r && perm.u && n <= |segs|
    requires Loaded(m.ts, m.pages, root, RoundUp(sz) * PGSIZE, segs, n) && Below(segs, n, sz)
    requires TreeFor(m.ts, root, RoundUp(sz))
    modifies m
    ensures Building(m, owner, trampoline, p, pr, if r == 0 then sz else r)
    ensures r != 0 ==> Loaded(m.ts, m.pages, root, RoundUp(r) * PGSIZE, segs, n) && TreeFor(m.ts, root, RoundUp(r))
    ensures var top := if newsz > sz then newsz else sz;
            && (r != 0 ==> r == top && |m.free| + UserFrames(RoundUp(r)) == |old(m.free)| + UserFrames(RoundUp(sz)))
            && (r != 0 <==> top > 0 && |old(m.free)| + UserFrames(RoundUp(sz)) >= UserFrames(RoundUp(top)))
    ensures Others(old(m.ts), old(m.use), old(m.pages), m.ts, m.use, m.pages, root, None)
  {
    hide NodeOk, Anchored, FreeOk, Leaf, Back, Others, Owns, Gained, OnlyPages, RoundUp, Loaded, UserOk;
    hide TreeFor, FramesFor, UserFrames, Made;
    ghost var ts0, use0, pages0 := m.ts, m.use, m.pages;
    GrowFrames(m.ts, m.use, m.free, owner, trampoline, p, pr, sz, newsz);
    ghost var ok;
    r, ok := m.UvmAlloc(root, sz, newsz, perm);
    if ok {
      GrownTree(ts0, m.ts, root, sz, newsz);
    }
    ghost var now := if ok && newsz > sz then newsz else sz;
    ghost var lo, hi := RoundUp(sz), RoundUp(now);
    GainedOthers(ts0, use0, pages0, m.ts, m.use, m.pages, root, lo, hi);
    SameSizes(ts0, use0, pages0, m.ts, m.use, m.pages, root, None);
    GainedKeeps(ts0, use0, pages0, m.ts, m.use, m.pages, root, lo, hi);
    OwnsBounded(m.ts, m.use, root, hi);
    FixedKept(ts0, use0, m.ts, root, lo, hi);
    StillBuilding(ts0, use0, pages0, m.ts, m.use, m.pages, owner, trampoline, p, pr, sz, now);
    SpaceUserOk(m.ts, m.use, m.pages, owner, trampoline, p, pr.(sz := now));
    BelowTop(segs, n, sz);
    GrownLoaded(ts0, pages0, m.ts, m.pages, root, lo, hi, perm, segs, n);
  }

  lemma GrowFrames(ts: Tables, use: seq<Use>, free: seq<nat>, owner: seq<nat>, trampoline: nat, p: nat, pr: Proc,
                   sz: nat, newsz: nat)
    requires pr.pagetable.Some? && SlotOk(ts, use, owner, trampoline, p, pr.(sz := sz)) && |use| <= NFRAMES
    requires FreeOk(free, use)
    requires TreeFor(ts, pr.pagetable.value, RoundUp(sz))
    ensures var need := FramesFor(ts, pr.pagetable.value, RoundUp(sz), RoundUp(newsz));
            var top := RoundUp(if newsz > sz then newsz else sz);
            && (|free| >= need <==> |free| + UserFrames(RoundUp(sz)) >= UserFrames(top))
            && (|free| >= need ==> need == UserFrames(top) - UserFrames(RoundUp(sz)))
  {
    hide Leaf, TreeFor, UserFrames, FramesFor, RoundUp, FreeOk;
    var root := pr.pagetable.value;
    PagesFit(ts, use, root, RoundUp(sz));
    FreeBound(free, use);
    if newsz > sz {
      RoundUpMonotone(sz, newsz);
      TreeFits(ts, root, RoundUp(sz), RoundUp(newsz), |free|);
    } else {
      RoundUpMonotone(newsz, sz);
      NoFrames(ts, root, RoundUp(sz), RoundUp(newsz));
    }
  }

  lemma FreeBound(free: seq<nat>, use: seq<Use>)
    requires FreeOk(free, use)
    ensures |free| <= |use|
  {
    CountDistinct(free);
    BoundedSet((set f | f in free), |use|);
  }

  lemma GrownTree(ts0: Tables, ts1: Tables, root: nat, sz: nat, newsz: nat)
    requires TreeFor(ts0, root, RoundUp(sz)) && Made(ts0, ts1, root, RoundUp(sz), RoundUp(newsz))
    ensures TreeFor(ts1, root, RoundUp(if newsz > sz then newsz else sz))
  {
  }

  lemma BelowTop(segs: seq<Segment>, n: nat, sz: nat)
    requires n <= |segs| && Below(segs, n, sz)
    ensures Below(segs, n, RoundUp(sz) * PGSIZE)
  {
  }

  lemma StillBuilding(ts0: Tables, use0: seq<Use>, pages0: seq<PageBytes>, ts1: Tables, use1: seq<Use>,
                      pages1: seq<PageBytes>, owner: seq<nat>, trampoline: nat, p: nat, pr: Proc, sz0: nat, sz1: nat)
    requires pr.pagetable.Some? && SlotOk(ts0, use0, owner, trampoline, p, pr.(sz := sz0))
    requires Others(ts0, use0, pages0, ts1, use1, pages1, pr.pagetable.value, None)
    requires IsRoot(use1, pr.pagetable.value) && Owns(ts1, use1, pr.pagetable.value, RoundUp(sz1))
    requires forall w :: USERTOP <= w < MAXVPN ==> Leaf(ts1, pr.pagetable.value, w) == Leaf(ts0, pr.pagetable.value, w)
    ensures SlotOk(ts1, use1, owner, trampoline, p, pr.(sz := sz1))
  {
    hide Leaf, Owns;
  }

  /** One turn of exec()'s loop over the program headers. It fails if the segment is not acceptable, or there
      are too few frames for it. */
  method LoadOne(m: Memory, root: nat, sz: nat, segs: seq<Segment>, i: nat, ghost owner: seq<nat>,
                 ghost trampoline: nat, ghost p: nat, ghost pr: Proc) returns (ok: bool, r: nat)
    requires Building(m, owner, trampoline, p, pr, sz) && pr.pagetable == Some(root) && i < |segs|
    requires Loaded(m.ts, m.pages, root, RoundUp(sz) * PGSIZE, segs, i) && Below(segs, i, sz)
    requires TreeFor(m.ts, root, RoundUp(sz)) && sz == SizeAfter(segs, i)
    modifies m
    ensures Building(m, owner, trampoline, p, pr, r)
    ensures ok ==> Loaded(m.ts, m.pages, root, RoundUp(r) * PGSIZE, segs, i + 1) && Below(segs, i + 1, r)
    ensures ok ==> r == SizeAfter(segs, i + 1) && TreeFor(m.ts, root, RoundUp(r))
    ensures ok ==> |m.free| + UserFrames(RoundUp(r)) == |old(m.free)| + UserFrames(RoundUp(sz))
    ensures ok <==> && Accepted(segs, i)
                    && |old(m.free)| + UserFrames(RoundUp(sz)) >= UserFrames(RoundUp(SizeAfter(segs, i + 1)))
    ensures Others(old(m.ts), old(m.use), old(m.pages), m.ts, m.use, m.pages, root, None)
  {
    hide NodeOk, Anchored, FreeOk, Leaf, Back, Others, Owns, RoundUp, Loaded, UserOk, Written, Length, Below, SlotOk;
    hide TreeFor, UserFrames;
    ghost var ts0, use0, pages0 := m.ts, m.use, m.pages;
    OthersSame(m.ts, m.use, m.pages, root, None);
    var s := segs[i];
    if !s.whole {
      return false, sz;
    }
    if !s.load {
      Skipped(m.ts, m.pages, root, RoundUp(sz) * PGSIZE, segs, i, sz);
      return true, sz;
    }
    if s.memsz < s.filesz || s.vaddr + s.memsz >= MAX64 || s.vaddr % PGSIZE != 0 {
      return false, sz;
    }
    var sz1 := Grow(m, root, sz, s.vaddr + s.memsz, PermOf(s), owner, trampoline, p, pr, segs, i);
    if sz1 == 0 {
      return false, sz;
    }
    ghost var ts1, use1, pages1 := m.ts, m.use, m.pages;
    LoadRange(m.ts, m.use, m.pages, owner, trampoline, p, pr, sz1, segs, i);
    ghost var done;
    ok, done := LoadSeg(m, root, s.vaddr, s.data, Length(s));
    UserWrite(m.ts, m.use, pages1, m.pages, owner, trampoline, p, pr.(sz := sz1), s.vaddr, s.data, done);
    OthersTwice(ts0, use0, pages0, ts1, use1, pages1, m.ts, m.use, m.pages, root, None);
    if ok {
      StoredLoaded(m.ts, pages1, m.pages, root, RoundUp(sz1) * PGSIZE, segs, i);
      BelowMore(segs, i, sz, sz1);
    }
    r := sz1;
  }

  lemma Skipped(ts: Tables, pages: seq<PageBytes>, root: nat, top: nat, segs: seq<Segment>, n: nat, sz: nat)
    requires n < |segs| && !segs[n].load && Loaded(ts, pages, root, top, segs, n) && Below(segs, n, sz)
    ensures Loaded(ts, pages, root, top, segs, n + 1) && Below(segs, n + 1, sz)
  {
  }

  lemma BelowMore(segs: seq<Segment>, n: nat, sz: nat, sz1: nat)
    requires n < |segs| && Below(segs, n, sz) && sz <= sz1 && segs[n].vaddr + segs[n].memsz <= sz1
    requires segs[n].filesz <= segs[n].memsz
    ensures Below(segs, n + 1, sz1)
  {
  }

  lemma LengthBound(s: Segment)
    ensures Length(s) <= s.filesz
  {
  }

  /** loadseg() finds all its pages, and they are few enough for its counter. */
  lemma LoadRange(ts: Tables, use: seq<Use>, pages: seq<PageBytes>, owner: seq<nat>, trampoline: nat, p: nat, pr: Proc,
                  sz: nat, segs: seq<Segment>, i: nat)
    requires pr.pagetable.Some? && SlotOk(ts, use, owner, trampoline, p, pr.(sz := sz)) && |use| <= NFRAMES
    requires i < |segs|
    requires Loaded(ts, pages, pr.pagetable.value, RoundUp(sz) * PGSIZE, segs, i)
    requires segs[i].vaddr + segs[i].memsz <= sz && segs[i].filesz <= segs[i].memsz
    ensures UserOk(ts, pages, pr.pagetable.value)
    ensures segs[i].vaddr + Length(segs[i]) <= RoundUp(sz) * PGSIZE <= NFRAMES * PGSIZE
    ensures forall a :: segs[i].vaddr <= a < segs[i].vaddr + Length(segs[i]) ==> Mapped(ts, pr.pagetable.value, a)
  {
    hide Leaf, Translate, PageNo, Offset;
    LengthBound(segs[i]);
    assert sz <= RoundUp(sz) * PGSIZE;
    PagesFit(ts, use, pr.pagetable.value, RoundUp(sz));
  }

  /** A write below the fixed pages changes frames of the address space only. */
  lemma UserWrite(ts: Tables, use: seq<Use>, pages0: seq<PageBytes>, pages1: seq<PageBytes>, owner: seq<nat>,
                  trampoline: nat, p: nat, pr: Proc, va: nat, src: seq<Byte>, n: nat)
    requires SlotOk(ts, use, owner, trampoline, p, pr) && pr.pagetable.Some? && |pages0| == |use|
    requires va + n <= USYSCALL_VA
    requires UserOk(ts, pages0, pr.pagetable.value) && n <= |src|
    requires Written(ts, pages0, pages1, pr.pagetable.value, va, src, n)
    ensures Others(ts, use, pages0, ts, use, pages1, pr.pagetable.value, None)
  {
    hide Leaf, Translate, PageNo, Offset;
    SpaceUserOk(ts, use, pages0, owner, trampoline, p, pr);
    forall f | 0 <= f < |use| && !Belongs(use[f], pr.pagetable.value, None)
      ensures pages1[f] == pages0[f]
    {
      forall a | va <= a < va + n
        ensures Translate(ts, pr.pagetable.value, PageNo(a)) != Some(f)
      {
        Split(a);
      }
    }
  }

  /** exec()'s loop over the program headers. */
  method LoadProgram(m: Memory, root: nat, segs: seq<Segment>, ghost owner: seq<nat>, ghost trampoline: nat,
                     ghost p: nat, ghost pr: Proc)
    returns (ok: bool, sz: nat)
    requires Building(m, owner, trampoline, p, pr, 0) && pr.pagetable == Some(root) && TreeFor(m.ts, root, 0)
    modifies m
    ensures Building(m, owner, trampoline, p, pr, sz)
    ensures ok ==> Loaded(m.ts, m.pages, root, RoundUp(sz) * PGSIZE, segs, |segs|) && Below(segs, |segs|, sz)
    ensures ok ==> sz == SizeAfter(segs, |segs|) && TreeFor(m.ts, root, RoundUp(sz))
    ensures ok ==> |m.free| + UserFrames(RoundUp(sz)) == |old(m.free)|
    ensures ok <==> AllAccepted(segs) && |old(m.free)| >= UserFrames(RoundUp(SizeAfter(segs, |segs|)))
    ensures Others(old(m.ts), old(m.use), old(m.pages), m.ts, m.use, m.pages, root, None)
  {
    hide NodeOk, Anchored, FreeOk, Leaf, Back, Others, Owns, SlotOk, Loaded, RoundUp, TreeFor, UserFrames, Accepted;
    hide Below;
    NoPagesYet();
    ghost var ts0, use0, pages0 := m.ts, m.use, m.pages;
    OthersSame(m.ts, m.use, m.pages, root, None);
    StartLoaded(m.ts, m.use, m.pages, owner, trampoline, p, pr, segs);
    var i := 0;
    sz := 0;
    while i < |segs|
      invariant 0 <= i <= |segs| && Building(m, owner, trampoline, p, pr, sz)
      invariant Loaded(m.ts, m.pages, root, RoundUp(sz) * PGSIZE, segs, i) && Below(segs, i, sz)
      invariant Others(ts0, use0, pages0, m.ts, m.use, m.pages, root, None)
      invariant sz == SizeAfter(segs, i) && TreeFor(m.ts, root, RoundUp(sz))
      invariant |m.free| + UserFrames(RoundUp(sz)) == |old(m.free)|
      invariant forall k :: 0 <= k < i ==> Accepted(segs, k)
    {
      ghost var ts1, use1, pages1 := m.ts, m.use, m.pages;
      NotEnough(segs, i + 1);
      ok, sz := LoadOne(m, root, sz, segs, i, owner, trampoline, p, pr);
      OthersTwice(ts0, use0, pages0, ts1, use1, pages1, m.ts, m.use, m.pages, root, None);
      if !ok {
        return;
      }
      i := i + 1;
    }
    ok := true;
  }

  lemma NoPagesYet()
    ensures RoundUp(0) == 0 && UserFrames(0) == 0
  {
  }

  lemma StartLoaded(ts: Tables, use: seq<Use>, pages: seq<PageBytes>, owner: seq<nat>, trampoline: nat, p: nat,
                    pr: Proc, segs: seq<Segment>)
    requires pr.pagetable.Some? && SlotOk(ts, use, owner, trampoline, p, pr.(sz := 0)) && |pages| == |use|
    ensures Loaded(ts, pages, pr.pagetable.value, RoundUp(0) * PGSIZE, segs, 0) && Below(segs, 0, 0)
  {
    hide Leaf;
    SpaceUserOk(ts, use, pages, owner, trampoline, p, pr.(sz := 0));
  }

  // ---- the stack ----

  /** The finished image: the program below the guard page, which is closed to the user, and above it the
      stack page. */
  ghost predicate Imaged(ts: Tables, pages: seq<PageBytes>, root: nat, guard: nat, segs: seq<Segment>)
  {
    && UserOk(ts, pages, root) && Translate(ts, root, guard) == None && Translate(ts, root, guard + 1).Some?
    && (forall a :: 0 <= a < guard * PGSIZE ==>
        Mapped(ts, root, a) && ByteAt(ts, pages, root, a) == ImageByte(segs, |segs|, a))
  }

  lemma GuardSet(ts0: Tables, use: seq<Use>, pages: seq<PageBytes>, ts1: Tables, owner: seq<nat>, trampoline: nat,
                 p: nat, pr: Proc, sz: nat, guard: nat, segs: seq<Segment>)
    requires pr.pagetable.Some? && SlotOk(ts0, use, owner, trampoline, p, pr.(sz := sz)) && |pages| == |use|
    requires guard + 1 < RoundUp(sz)
    requires Loaded(ts0, pages, pr.pagetable.value, RoundUp(sz) * PGSIZE, segs, |segs|)
    requires Owns(ts1, use, pr.pagetable.value, RoundUp(sz))
    requires OnlyPages(ts0, use, ts1, pr.pagetable.value, guard, guard + 1)
    requires !Leaf(ts1, pr.pagetable.value, guard).perm.u
    ensures Imaged(ts1, pages, pr.pagetable.value, guard, segs)
    ensures SlotOk(ts1, use, owner, trampoline, p, pr.(sz := sz))
    ensures Others(ts0, use, pages, ts1, use, pages, pr.pagetable.value, None)
  {
    hide Leaf, ImageByte;
    var root := pr.pagetable.value;
    TablesOthers(ts0, use, pages, ts1, use, pages, root, guard);
    StillBuilding(ts0, use, pages, ts1, use, pages, owner, trampoline, p, pr, sz, sz);
    SpaceUserOk(ts1, use, pages, owner, trampoline, p, pr.(sz := sz));
    assert Mapped(ts0, root, (guard + 1) * PGSIZE) && PageNo((guard + 1) * PGSIZE) == guard + 1;
    forall a | 0 <= a < guard * PGSIZE
      ensures Mapped(ts1, root, a) && ByteAt(ts1, pages, root, a) == ImageByte(segs, |segs|, a)
    {
      Split(a);
      assert Mapped(ts0, root, a);
    }
  }

  /** Two more pages at the next page boundary, the first of them a guard. */
  method MakeStack(m: Memory, root: nat, sz: nat, segs: seq<Segment>, ghost owner: seq<nat>, ghost trampoline: nat,
                   ghost p: nat, ghost pr: Proc)
    returns (ok: bool, r: nat)
    requires Building(m, owner, trampoline, p, pr, sz) && pr.pagetable == Some(root)
    requires Loaded(m.ts, m.pages, root, RoundUp(sz) * PGSIZE, segs, |segs|) && Below(segs, |segs|, sz)
    requires TreeFor(m.ts, root, RoundUp(sz))
    modifies m
    ensures Building(m, owner, trampoline, p, pr, r)
    ensures ok ==> r == (RoundUp(sz) + 2) * PGSIZE && Imaged(m.ts, m.pages, root, RoundUp(sz), segs)
    ensures ok <==> |old(m.free)| + UserFrames(RoundUp(sz)) >= UserFrames(RoundUp(sz) + 2)
    ensures Others(old(m.ts), old(m.use), old(m.pages), m.ts, m.use, m.pages, root, None)
  {
    hide NodeOk, Anchored, FreeOk, Leaf, Back, Others, Owns, Loaded, RoundUp, Imaged, TreeFor, UserFrames;
    ghost var ts0, use0, pages0 := m.ts, m.use, m.pages;
    var top := RoundUp(sz);
    RoundUpExact(top);
    RoundUpExact(top + 2);
    AboveSize(sz);
    var sz1 := Grow(m, root, top * PGSIZE, top * PGSIZE + 2 * PGSIZE, USER_WRITE, owner, trampoline, p, pr, segs,
                    |segs|);
    if sz1 == 0 {
      return false, top * PGSIZE;
    }
    ghost var ts1, use1, pages1 := m.ts, m.use, m.pages;
    OwnsValid(m.ts, m.use, root, top + 2, top);
    OwnsBounded(m.ts, m.use, root, top + 2);
    m.UvmClear(root, top);
    BackRemapped(ts1, m.ts, m.use, root, top);
    GuardSet(ts1, m.use, m.pages, m.ts, owner, trampoline, p, pr, sz1, top, segs);
    OthersTwice(ts0, use0, pages0, ts1, use1, pages1, m.ts, m.use, m.pages, root, None);
    return true, sz1;
  }

  lemma OwnsValid(ts: Tables, use: seq<Use>, root: nat, n: nat, w: nat)
    requires Owns(ts, use, root, n) && w < n
    ensures Leaf(ts, root, w).v
  {
    hide Leaf;
    assert OwnPage(ts, use, root, w);
  }

  lemma AboveSize(sz: nat)
    ensures sz <= RoundUp(sz) * PGSIZE
    ensures forall segs, n :: 0 <= n <= |segs| && Below(segs, n, sz) ==> Below(segs, n, RoundUp(sz) * PGSIZE)
  {
  }

  /** An array of 64-bit numbers. */
  function Words(ns: seq<nat>): (s: seq<Byte>)
    ensures |s| == 8 * |ns|
  {
    if ns == [] then [] else Words(ns[..|ns| - 1]) + Word64(ns[|ns| - 1])
  }

  lemma {:induction false} WordsAt(ns: seq<nat>, i: nat)
    requires i < |ns|
    ensures Words(ns)[8 * i..8 * i + 8] == Word64(ns[i])
  {
    hide Word64;
    if i < |ns| - 1 {
      WordsAt(ns[..|ns| - 1], i);
      assert Words(ns)[8 * i..8 * i + 8] == Words(ns[..|ns| - 1])[8 * i..8 * i + 8];
    }
  }

  /** Each argument, with its NUL, is at its address. */
  ghost predicate ArgsAt(ts: Tables, pages: seq<PageBytes>, root: nat, at: seq<nat>, args: seq<seq<Byte>>)
    requires UserOk(ts, pages, root)
  {
    |at| <= |args| && forall i :: 0 <= i < |at| ==> Fetched(ts, pages, root, at[i], args[i] + [0])
  }

  /** The arguments lie between sp and top, each wholly below the ones before it. */
  ghost predicate ArgsWithin(at: seq<nat>, args: seq<seq<Byte>>, sp: nat, top: nat)
  {
    && |at| <= |args| && (forall i :: 0 <= i < |at| ==> sp <= at[i] && at[i] + |args[i]| + 1 <= top)
    && (forall i, j :: 0 <= i < j < |at| ==> at[j] + |args[j]| + 1 <= at[i])
  }

  /** Bytes below a limit are as they were. */
  ghost predicate KeptBelow(ts: Tables, pages0: seq<PageBytes>, pages1: seq<PageBytes>, root: nat, limit: nat)
    requires UserOk(ts, pages0, root) && UserOk(ts, pages1, root)
  {
    forall a :: 0 <= a < limit && Mapped(ts, root, a) ==> ByteAt(ts, pages1, root, a) == ByteAt(ts, pages0, root, a)
  }

  /** One more string below those already there. */
  lemma Pushed(ts: Tables, pages0: seq<PageBytes>, pages1: seq<PageBytes>, pages2: seq<PageBytes>, root: nat,
               at: seq<nat>, args: seq<seq<Byte>>, sp: nat, va: nat, src: seq<Byte>, top: nat, base: nat)
    requires UserOk(ts, pages0, root) && UserOk(ts, pages1, root) && UserOk(ts, pages2, root)
    requires ArgsAt(ts, pages1, root, at, args) && ArgsWithin(at, args, sp, top)
    requires KeptBelow(ts, pages0, pages1, root, base)
    requires Written(ts, pages1, pages2, root, va, src, |src|) && base <= va && va + |src| <= sp
    ensures ArgsAt(ts, pages2, root, at, args) && KeptBelow(ts, pages0, pages2, root, base)
    ensures Fetched(ts, pages2, root, va, src)
  {
  }

  const MAXARG := 32

  /** sp - sp % 16 */
  function Align16(sp: nat): (r: nat)
    ensures sp - 16 < r <= sp && r % 16 == 0
  {
    sp - sp % 16
  }

  /** The stack that exec() hands to a program: the arguments, and at sp their addresses followed by 0. */
  ghost predicate StackOk(ts: Tables, pages: seq<PageBytes>, root: nat, sp: nat, base: nat, top: nat, at: seq<nat>,
                          args: seq<seq<Byte>>)
  {
    && UserOk(ts, pages, root) && |at| == |args| && sp % 16 == 0 && base <= sp
    && ArgsAt(ts, pages, root, at, args) && ArgsWithin(at, args, sp + 8 * (|args| + 1), top)
    && Fetched(ts, pages, root, sp, Words(at + [0]))
  }

  /** How far above the bottom of the stack page exec() is after n argument strings: each is followed by a NUL
      and starts at a multiple of 16. */
  function StackLeft(args: seq<seq<Byte>>, n: nat): int
    requires n <= |args|
  {
    if n == 0 then PGSIZE else Down16(StackLeft(args, n - 1) - |args[n - 1]| - 1)
  }

  function Down16(x: int): int { x - x % 16 }

  /** There is room for the strings and for the array of their addresses. */
  predicate ArgsFit(args: seq<seq<Byte>>)
  {
    StackLeft(args, |args|) >= 8 * (|args| + 1)
  }

  lemma {:induction false} StackShrinks(args: seq<seq<Byte>>, n: nat, k: nat)
    requires n <= k <= |args|
    ensures StackLeft(args, k) <= StackLeft(args, n)
  {
    if n < k {
      StackShrinks(args, n, k - 1);
    }
  }

  lemma AlignedAbove(base: nat, x: int)
    requires base % 16 == 0 && base + x >= 0
    ensures Align16(base + x) == base + Down16(x) && (Down16(x) >= 0 <==> x >= 0)
  {
  }

  /** exec() pushes the argument strings, then the array of their addresses. It fails if and only if they do
      not fit into the stack page. */
  method PushArgs(m: Memory, root: nat, top: nat, args: seq<seq<Byte>>, ghost owner: seq<nat>, ghost trampoline: nat,
                  ghost p: nat, ghost pr: Proc) returns (ok: bool, sp: nat, ghost at: seq<nat>)
    requires Building(m, owner, trampoline, p, pr, top) && pr.pagetable == Some(root)
    requires UserOk(m.ts, m.pages, root) && top >= 2 * PGSIZE && top % 16 == 0
    requires |args| < MAXARG && forall i :: 0 <= i < |args| ==> |args[i]| < PGSIZE
    modifies m`pages
    ensures Building(m, owner, trampoline, p, pr, top) && UserOk(m.ts, m.pages, root)
    ensures ok ==> StackOk(m.ts, m.pages, root, sp, top - PGSIZE, top, at, args)
    ensures ok ==> ArgsFit(args)
    ensures (forall a :: top - PGSIZE <= a < top ==> Mapped(m.ts, root, a)) && ArgsFit(args) ==> ok
    ensures KeptBelow(m.ts, old(m.pages), m.pages, root, top - PGSIZE)
    ensures Others(m.ts, m.use, old(m.pages), m.ts, m.use, m.pages, root, None)
  {
    hide NodeOk, Anchored, FreeOk, Leaf, Back, Others, Owns, SlotOk, UserOk, Written, Fetched, RoundUp, Words;
    hide Translate, PageNo;
    hide Align16, Down16, ArgsAt, ArgsWithin, KeptBelow, Mapped;
    ghost var pages0 := m.pages;
    NothingPushed(m.ts, m.pages, root, args, top);
    OthersSame(m.ts, m.use, m.pages, root, None);
    TopBound(m.ts, m.use, owner, trampoline, p, pr, top);
    sp := top;
    var ustack: seq<nat> := [];
    var base, argc := top - PGSIZE, 0;
    while argc < |args|
      invariant 0 <= argc <= |args| && |ustack| == argc && base <= sp <= top && sp == base + StackLeft(args, argc)
      invariant Building(m, owner, trampoline, p, pr, top) && UserOk(m.ts, m.pages, root)
      invariant Others(m.ts, m.use, pages0, m.ts, m.use, m.pages, root, None)
      invariant ArgsAt(m.ts, m.pages, root, ustack, args) && ArgsWithin(ustack, args, sp, top)
      invariant KeptBelow(m.ts, pages0, m.pages, root, base)
    {
      var at1 := Align16(sp - (|args[argc]| + 1));
      AlignedAbove(base, StackLeft(args, argc) - |args[argc]| - 1);
      StackShrinks(args, argc + 1, |args|);
      if at1 < base {
        return false, sp, ustack;
      }
      var stored := PushOne(m, root, args[argc] + [0], at1, sp, base, top, pages0, ustack, args, owner, trampoline, p,
                            pr);
      if !stored {
        return false, sp, ustack;
      }
      OneMore(m.ts, m.pages, root, ustack, args, sp, at1, top);
      sp := at1;
      ustack := ustack + [sp];
      argc := argc + 1;
    }
    var at1 := Align16(sp - 8 * (argc + 1));
    AlignedAbove(base, StackLeft(args, argc) - 8 * (argc + 1));
    if at1 < base {
      return false, sp, ustack;
    }
    ok := PushOne(m, root, Words(ustack + [0]), at1, sp, base, top, pages0, ustack, args, owner, trampoline, p, pr);
    if ok {
      StackDone(m.ts, m.pages, root, ustack, args, sp, base, top);
    }
    sp := at1;
    at := ustack;
  }

  lemma NothingPushed(ts: Tables, pages: seq<PageBytes>, root: nat, args: seq<seq<Byte>>, top: nat)
    requires UserOk(ts, pages, root) && top >= PGSIZE
    ensures ArgsAt(ts, pages, root, [], args) && ArgsWithin([], args, top, top)
    ensures KeptBelow(ts, pages, pages, root, top - PGSIZE)
  {
  }

  lemma OneMore(ts: Tables, pages: seq<PageBytes>, root: nat, at: seq<nat>, args: seq<seq<Byte>>, sp: nat, va: nat,
                top: nat)
    requires UserOk(ts, pages, root) && |at| < |args| && ArgsAt(ts, pages, root, at, args)
    requires ArgsWithin(at, args, sp, top)
    requires Fetched(ts, pages, root, va, args[|at|] + [0]) && va + |args[|at|]| + 1 <= sp <= top
    ensures ArgsAt(ts, pages, root, at + [va], args) && ArgsWithin(at + [va], args, va, top)
  {
    hide Fetched;
  }

  lemma StackDone(ts: Tables, pages: seq<PageBytes>, root: nat, at: seq<nat>, args: seq<seq<Byte>>, sp: nat, base: nat,
                  top: nat)
    requires UserOk(ts, pages, root) && |at| == |args| && ArgsAt(ts, pages, root, at, args)
    requires ArgsWithin(at, args, sp, top)
    requires sp >= 8 * (|args| + 1) && base <= Align16(sp - 8 * (|args| + 1))
    requires Fetched(ts, pages, root, Align16(sp - 8 * (|args| + 1)), Words(at + [0]))
    ensures StackOk(ts, pages, root, Align16(sp - 8 * (|args| + 1)), base, top, at, args)
  {
    hide Fetched, Words;
  }

  /** copyout() onto the stack, below what is there. */
  method PushOne(m: Memory, root: nat, src: seq<Byte>, va: nat, ghost sp: nat, ghost base: nat, ghost top: nat,
                 ghost pages0: seq<PageBytes>, ghost at: seq<nat>, ghost args: seq<seq<Byte>>, ghost owner: seq<nat>,
                 ghost trampoline: nat, ghost p: nat, ghost pr: Proc)
    returns (ok: bool)
    requires Building(m, owner, trampoline, p, pr, top) && pr.pagetable == Some(root) && |pages0| == |m.use|
    requires UserOk(m.ts, m.pages, root) && UserOk(m.ts, pages0, root) && base <= va
    requires va + |src| <= sp <= top <= USYSCALL_VA
    requires ArgsAt(m.ts, m.pages, root, at, args) && ArgsWithin(at, args, sp, top)
    requires KeptBelow(m.ts, pages0, m.pages, root, base)
    requires Others(m.ts, m.use, pages0, m.ts, m.use, m.pages, root, None)
    modifies m`pages
    ensures Building(m, owner, trampoline, p, pr, top) && UserOk(m.ts, m.pages, root)
    ensures ok ==> ArgsAt(m.ts, m.pages, root, at, args) && Fetched(m.ts, m.pages, root, va, src)
    ensures ok <==> forall a :: va <= a < va + |src| ==> Mapped(m.ts, root, a)
    ensures KeptBelow(m.ts, pages0, m.pages, root, base)
    ensures Others(m.ts, m.use, pages0, m.ts, m.use, m.pages, root, None)
  {
    hide NodeOk, Anchored, FreeOk, Leaf, Back, Others, Owns, UserOk, Written, Fetched, RoundUp, Translate, PageNo;
    hide ArgsAt, ArgsWithin, KeptBelow;
    ghost var pages1 := m.pages;
    ghost var done;
    ok, done := CopyOut(m, root, va, src);
    UserWrite(m.ts, m.use, pages1, m.pages, owner, trampoline, p, pr.(sz := top), va, src, done);
    OthersTwice(m.ts, m.use, pages0, m.ts, m.use, pages1, m.ts, m.use, m.pages, root, None);
    KeptStill(m.ts, pages0, pages1, m.pages, root, va, src, done, base);
    if ok {
      Pushed(m.ts, pages0, pages1, m.pages, root, at, args, sp, va, src, top, base);
    }
  }

  lemma KeptStill(ts: Tables, pages0: seq<PageBytes>, pages1: seq<PageBytes>, pages2: seq<PageBytes>, root: nat,
                  va: nat, src: seq<Byte>, n: nat, base: nat)
    requires UserOk(ts, pages0, root) && UserOk(ts, pages1, root) && UserOk(ts, pages2, root) && n <= |src|
    requires base <= va
    requires KeptBelow(ts, pages0, pages1, root, base) && Written(ts, pages1, pages2, root, va, src, n)
    ensures KeptBelow(ts, pages0, pages2, root, base)
  {
  }

  lemma TopBound(ts: Tables, use: seq<Use>, owner: seq<nat>, trampoline: nat, p: nat, pr: Proc, top: nat)
    requires pr.pagetable.Some? && SlotOk(ts, use, owner, trampoline, p, pr.(sz := top))
    ensures top <= USYSCALL_VA
  {
  }

  // ---- exec() ----

  /** User memory reads the same through root in both states. */
  ghost predicate SameUser(ts0: Tables, pages0: seq<PageBytes>, ts1: Tables, pages1: seq<PageBytes>, root: nat)
  {
    && |pages0| == |pages1|
    && (forall w :: Translate(ts1, root, w) == Translate(ts0, root, w))
    && (forall w :: Translate(ts0, root, w).Some? ==>
          var f := Translate(ts0, root, w).value; f < |pages0| && pages1[f] == pages0[f])
  }

  lemma SameImage(ts0: Tables, pages0: seq<PageBytes>, ts1: Tables, pages1: seq<PageBytes>, root: nat, guard: nat,
                  segs: seq<Segment>, sp: nat, base: nat, top: nat, at: seq<nat>, args: seq<seq<Byte>>)
    requires SameUser(ts0, pages0, ts1, pages1, root)
    requires Imaged(ts0, pages0, root, guard, segs) && StackOk(ts0, pages0, root, sp, base, top, at, args)
    ensures Imaged(ts1, pages1, root, guard, segs) && StackOk(ts1, pages1, root, sp, base, top, at, args)
  {
    hide Translate, PageNo, Offset, ImageByte, Words;
    assert UserOk(ts1, pages1, root);
    forall a: nat | Mapped(ts0, root, a)
      ensures Mapped(ts1, root, a) && ByteAt(ts1, pages1, root, a) == ByteAt(ts0, pages0, root, a)
    {
    }
    forall va: nat, s: seq<Byte> | Fetched(ts0, pages0, root, va, s)
      ensures Fetched(ts1, pages1, root, va, s)
    {
    }
  }

  /** What belongs to others does not matter to user memory. */
  lemma OthersUser(ts0: Tables, use0: seq<Use>, pages0: seq<PageBytes>, ts1: Tables, use1: seq<Use>,
                   pages1: seq<PageBytes>, owner: seq<nat>, trampoline: nat, p: nat, pr: Proc, root: nat)
    requires SlotOk(ts0, use0, owner, trampoline, p, pr) && pr.pagetable.Some? && pr.pagetable != Some(root)
    requires Others(ts0, use0, pages0, ts1, use1, pages1, root, None)
    ensures SameUser(ts0, pages0, ts1, pages1, pr.pagetable.value)
  {
    hide Leaf;
    SpaceUserOk(ts0, use0, pages0, owner, trampoline, p, pr);
  }

  lemma FrameUser(ts: Tables, use: seq<Use>, pages0: seq<PageBytes>, pages1: seq<PageBytes>, owner: seq<nat>,
                  trampoline: nat, p: nat, pr: Proc)
    requires SlotOk(ts, use, owner, trampoline, p, pr) && pr.pagetable.Some? && |pages0| == |use| == |pages1|
    requires pr.trapframe.Some? && pr.trapframe.value < |use|
    requires pages1 == pages0[pr.trapframe.value := pages1[pr.trapframe.value]]
    ensures SameUser(ts, pages0, ts, pages1, pr.pagetable.value)
  {
    hide Leaf;
    SpaceUserOk(ts, use, pages0, owner, trampoline, p, pr);
  }

  const TRAPFRAME_A1 := 120

  /** The registers with which a new program starts. */
  function StartFrame(page: PageBytes, entry: nat, sp: nat): (r: PageBytes)
  {
    Patch(Patch(Patch(page, TRAPFRAME_A1, Word64(sp)), TRAPFRAME_EPC, Word64(entry)), TRAPFRAME_SP, Word64(sp))
  }

  ghost predicate Starts(page: PageBytes, entry: nat, sp: nat)
  {
    && page[TRAPFRAME_EPC..TRAPFRAME_EPC + 8] == Word64(entry) && page[TRAPFRAME_SP..TRAPFRAME_SP + 8] == Word64(sp)
    && page[TRAPFRAME_A1..TRAPFRAME_A1 + 8] == Word64(sp)
  }

  lemma FrameStarts(page: PageBytes, entry: nat, sp: nat)
    ensures Starts(StartFrame(page, entry, sp), entry, sp)
  {
  }

  /** The process has changed from one address space to another, and the old one is gone. */
  lemma Switched(ts0: Tables, use0: seq<Use>, pages0: seq<PageBytes>, procs0: seq<Proc>, owner0: seq<nat>,
                 ts1: Tables, use1: seq<Use>, pages1: seq<PageBytes>, ts2: Tables, use2: seq<Use>, pages2:
                 seq<PageBytes>, procs2: seq<Proc>, owner2: seq<nat>, trampoline: nat, from: nat, to: nat, p: nat, pr:
                 Proc)
    requires Inv(ts0, use0, procs0, owner0, trampoline) && p < |procs0| && procs0[p].pagetable == Some(from)
    requires Others(ts0, use0, pages0, ts1, use1, pages1, to, None) && !IsRoot(use0, to) && to < |use0|
    requires Others(ts1, use1, pages1, ts2, use2, pages2, from, None) && use2 == Freed(use1, from, None)
    requires pr == procs0[p].(pagetable := Some(to), sz := pr.sz) && procs2 == procs0[p := pr]
    requires owner2 == owner0[to := p]
    requires SlotOk(ts1, use1, owner2, trampoline, p, pr)
    ensures Inv(ts2, use2, procs2, owner2, trampoline) && (Pids(pages0, procs0) ==> Pids(pages2, procs2))
  {
    hide Leaf, SpaceOk;
    SlotAt(ts0, use0, procs0, owner0, trampoline, p);
    RootOf0(ts0, use0, owner0, trampoline, p, procs0[p]);
    forall q | 0 <= q < |procs0|
      ensures SlotOk(ts2, use2, owner2, trampoline, q, procs2[q])
      ensures (HoldsPid(pages0, procs0[q]) ==> HoldsPid(pages2, procs2[q]))
    {
      assert SlotOk(ts0, use0, owner0, trampoline, q, procs0[q]);
      RootOf0(ts0, use0, owner0, trampoline, q, procs0[q]);
      if q != p {
        SlotKept(ts0, use0, pages0, ts1, use1, pages1, owner0, owner2, trampoline, to, None, q, procs0[q]);
        SlotKept(ts1, use1, pages1, ts2, use2, pages2, owner2, owner2, trampoline, from, None, q, procs0[q]);
      } else {
        SlotKept(ts1, use1, pages1, ts2, use2, pages2, owner2, owner2, trampoline, from, None, p, pr);
        assert procs0[p].usyscall.Some? ==> pages1[pr.usyscall.value] == pages0[pr.usyscall.value];
      }
    }
    forall f | 0 <= f < |use2|
      ensures Accounted(use2, f, procs2, owner2)
    {
      assert Accounted(use0, f, procs0, owner0);
    }
    if Pids(pages0, procs0) {
      forall q | 0 <= q < |procs2|
        ensures HoldsPid(pages2, procs2[q])
      {
        assert HoldsPid(pages0, procs0[q]);
      }
    }
  }

  lemma RootOf0(ts: Tables, use: seq<Use>, owner: seq<nat>, trampoline: nat, p: nat, pr: Proc)
    requires SlotOk(ts, use, owner, trampoline, p, pr)
    ensures pr.pagetable.Some? ==> IsRoot(use, pr.pagetable.value)
  {
  }

  /** exec() can build the image: every segment is acceptable, the arguments fit, and there are frames for the
      program, the guard page, the stack page and their tables. */
  predicate CanBuild(segs: seq<Segment>, args: seq<seq<Byte>>, frames: nat)
  {
    AllAccepted(segs) && ArgsFit(args) && frames >= UserFrames(RoundUp(SizeAfter(segs, |segs|)) + 2)
  }

  /** The whole image: loading, stack and arguments. */
  method BuildImage(m: Memory, root: nat, segs: seq<Segment>, args: seq<seq<Byte>>, ghost owner: seq<nat>,
                    ghost trampoline: nat, ghost p: nat,
                        ghost pr: Proc) returns (ok: bool, sz: nat, sp: nat, ghost at: seq<nat>)
    requires Building(m, owner, trampoline, p, pr, 0) && pr.pagetable == Some(root) && TreeFor(m.ts, root, 0)
    requires |args| < MAXARG && forall i :: 0 <= i < |args| ==> |args[i]| < PGSIZE
    modifies m
    ensures Building(m, owner, trampoline, p, pr, sz)
    ensures ok ==> ImageOk(m.ts, m.pages, root, sz, segs, sp, at, args)
    ensures ok <==> CanBuild(segs, args, |old(m.free)|)
    ensures Others(old(m.ts), old(m.use), old(m.pages), m.ts, m.use, m.pages, root, None)
  {
    hide NodeOk, Anchored, FreeOk, Leaf, Back, Others, Owns, SlotOk, Loaded, Imaged, StackOk, UserOk, KeptBelow;
    hide RoundUp;
    hide TreeFor, UserFrames, AllAccepted, ArgsFit, Below, Mapped;
    ghost var ts0, use0, pages0 := m.ts, m.use, m.pages;
    sp, at := 0, [];
    ok, sz := LoadProgram(m, root, segs, owner, trampoline, p, pr);
    ghost var guard := RoundUp(SizeAfter(segs, |segs|));
    UserFramesMonotone(guard, guard + 2);
    if !ok {
      return;
    }
    ghost var ts1, use1, pages1 := m.ts, m.use, m.pages;
    ok, sz := MakeStack(m, root, sz, segs, owner, trampoline, p, pr);
    OthersTwice(ts0, use0, pages0, ts1, use1, pages1, m.ts, m.use, m.pages, root, None);
    if !ok {
      return;
    }
    ghost var ts2, use2, pages2 := m.ts, m.use, m.pages;
    ok, sp, at := AddArgs(m, root, sz, guard, segs, args, owner, trampoline, p, pr);
    OthersTwice(ts0, use0, pages0, ts2, use2, pages2, m.ts, m.use, m.pages, root, None);
  }

  /** The arguments for an image that has its stack. */
  method AddArgs(m: Memory, root: nat, top: nat, ghost guard: nat, ghost segs: seq<Segment>, args: seq<seq<Byte>>,
                 ghost owner: seq<nat>, ghost trampoline: nat, ghost p: nat, ghost pr: Proc)
    returns (ok: bool, sp: nat, ghost at: seq<nat>)
    requires Building(m, owner, trampoline, p, pr, top) && pr.pagetable == Some(root)
    requires Imaged(m.ts, m.pages, root, guard, segs) && top == (guard + 2) * PGSIZE
    requires |args| < MAXARG && forall i :: 0 <= i < |args| ==> |args[i]| < PGSIZE
    modifies m`pages
    ensures Building(m, owner, trampoline, p, pr, top)
    ensures ok ==> ImageOk(m.ts, m.pages, root, top, segs, sp, at, args)
    ensures ok <==> ArgsFit(args)
    ensures Others(m.ts, m.use, old(m.pages), m.ts, m.use, m.pages, root, None)
  {
    hide NodeOk, Anchored, FreeOk, Leaf, Back, Others, Owns, SlotOk, Imaged, StackOk, UserOk, KeptBelow, ArgsFit;
    hide Mapped;
    ghost var pages0 := m.pages;
    ImagedUser(m.ts, m.pages, root, guard, segs);
    ok, sp, at := PushArgs(m, root, top, args, owner, trampoline, p, pr);
    if ok {
      StillImaged(m.ts, pages0, m.pages, root, guard, segs);
    }
  }

  /** The image of a program of total size sz: its segments, the guard page, and the stack page with the
      arguments. */
  ghost predicate ImageOk(ts: Tables, pages: seq<PageBytes>, root: nat, sz: nat, segs: seq<Segment>, sp: nat,
                          at: seq<nat>, args: seq<seq<Byte>>)
  {
    && sz % PGSIZE == 0 && sz >= 2 * PGSIZE
    && Imaged(ts, pages, root, sz / PGSIZE - 2, segs) && StackOk(ts, pages, root, sp, sz - PGSIZE, sz, at, args)
  }

  lemma ImagedUser(ts: Tables, pages: seq<PageBytes>, root: nat, guard: nat, segs: seq<Segment>)
    requires Imaged(ts, pages, root, guard, segs)
    ensures UserOk(ts, pages, root)
    ensures forall a :: (guard + 1) * PGSIZE <= a < (guard + 2) * PGSIZE ==> Mapped(ts, root, a)
  {
    hide Leaf, Translate;
  }

  lemma StillImaged(ts: Tables, pages0: seq<PageBytes>, pages1: seq<PageBytes>, root: nat, guard: nat,
                    segs: seq<Segment>)
    requires Imaged(ts, pages0, root, guard, segs) && UserOk(ts, pages0, root) && UserOk(ts, pages1, root)
    requires KeptBelow(ts, pages0, pages1, root, guard * PGSIZE + PGSIZE)
    ensures Imaged(ts, pages1, root, guard, segs)
  {
  }

  /** exec(): the process now runs the new program, with its segments in memory and its arguments on the
      stack, and the old user memory is free; of other processes nothing changed. It fails if and only if the
      header is bad, the image cannot be built, or there are no three frames more for an empty address space;
      then the process is as before and no memory has been used up. */
  method Run(k: ProcTable, p: nat, elfOk: bool, segs: seq<Segment>, entry: nat, args: seq<seq<Byte>>)
    returns (r: int, ghost sp: nat, ghost at: seq<nat>)
    requires k.Valid() && p < |k.procs| && k.procs[p].pagetable.Some?
    requires |args| < MAXARG && forall i :: 0 <= i < |args| ==> |args[i]| < PGSIZE
    modifies k`procs, k`owner, k.m
    ensures k.Valid()
    ensures r == -1 <==> !elfOk || |old(k.m.free)| < 3 || !CanBuild(segs, args, |old(k.m.free)| - 3)
    ensures r == -1 ==>
              && k.procs == old(k.procs)
              && Unaffected(old(k.m.ts), old(k.m.use), old(k.m.pages), k.m.ts, k.m.use, k.m.pages)
    ensures r != -1 ==>
              && r == |args| && |k.procs| == |old(k.procs)| && k.procs[p].pagetable.Some? && k.procs[p].trapframe.Some?
              && k.procs == old(k.procs)[p := old(k.procs)[p].(pagetable := k.procs[p].pagetable, sz := k.procs[p].sz)]
              && !IsRoot(old(k.m.use), k.procs[p].pagetable.value) && !IsRoot(k.m.use, old(k.procs)[p].pagetable.value)
              && ImageOk(k.m.ts, k.m.pages, k.procs[p].pagetable.value, k.procs[p].sz, segs, sp, at, args)
              && k.procs[p].trapframe.value < |k.m.pages| && Starts(k.m.pages[k.procs[p].trapframe.value], entry, sp)
              && OthersOfTwo(old(k.m.ts), old(k.m.use), old(k.m.pages), k.m.ts, k.m.use, k.m.pages,
                             k.procs[p].pagetable.value, None, old(k.procs)[p].pagetable.value, Some(p))
    ensures old(Pids(k.m.pages, k.procs)) ==> Pids(k.m.pages, k.procs)
  {
    hide NodeOk, Anchored, FreeOk, Leaf, Back, Others, Owns, Inv, Pids, Fixed, Unaffected, ImageOk, Belongs, Word64;
    hide Holds, Starts;
    hide CanBuild, TreeFor, OthersOfTwo;
    var m := k.m;
    ghost var ts0, use0, pages0 := m.ts, m.use, m.pages;
    sp, at := 0, [];
    UnaffectedNot(m.ts, m.use, m.pages);
    if !elfOk {
      return -1, sp, at;
    }
    SlotAt(m.ts, m.use, k.procs, k.owner, k.trampoline, p);
    var root := ProcPagetable(m, k.trampoline, k.procs[p].trapframe.value, k.procs[p].usyscall.value);
    if root.None? {
      NoSpace(ts0, use0, |use0|);
      SameUse(ts0, use0, pages0, m.ts, m.pages, |use0|);
      UnaffectedInv(ts0, use0, pages0, m.ts, m.use, m.pages, k.procs, k.owner, k.trampoline);
      return -1, sp, at;
    }
    ghost var pr, owner := k.procs[p].(pagetable := root), k.owner[root.value := p];
    ghost var ts1, use1, pages1 := m.ts, m.use, m.pages;
    StartBuilding(ts0, use0, pages0, m.ts, m.use, m.pages, k.owner, k.trampoline, p, k.procs[p], root.value);
    var ok, sz, esp;
    ok, sz, esp, at := BuildImage(m, root.value, segs, args, owner, k.trampoline, p, pr);
    sp := esp;
    OthersTwice(ts0, use0, pages0, ts1, use1, pages1, m.ts, m.use, m.pages, root.value, None);
    SameSizes(ts0, use0, pages0, m.ts, m.use, m.pages, root.value, None);
    ghost var ts2, use2, pages2 := m.ts, m.use, m.pages;
    if !ok {
      NoSpace(ts0, use0, root.value);
      ProcFreePagetable(m, root.value, sz, k.trampoline, pr.trapframe.value, pr.usyscall.value);
      Undone(ts0, use0, pages0, ts2, use2, pages2, m.ts, m.use, m.pages, root.value, None);
      UnaffectedInv(ts0, use0, pages0, m.ts, m.use, m.pages, k.procs, k.owner, k.trampoline);
      return -1, sp, at;
    }
    Switch(k, p, root.value, sz, esp, entry, segs, at, args, ts0, use0, pages0);
    r := |args|;
  }

  lemma StartBuilding(ts0: Tables, use0: seq<Use>, pages0: seq<PageBytes>, ts1: Tables, use1: seq<Use>,
                      pages1: seq<PageBytes>, owner: seq<nat>, trampoline: nat, p: nat, pr: Proc, root: nat)
    requires SlotOk(ts0, use0, owner, trampoline, p, pr) && pr.pagetable.Some? && |owner| == |use0|
    requires Others(ts0, use0, pages0, ts1, use1, pages1, root, None) && root < |use0|
    requires IsRoot(use1, root) && Owns(ts1, use1, root, 0)
    requires Fixed(ts1, root, trampoline, pr.trapframe.value, pr.usyscall.value)
    ensures SlotOk(ts1, use1, owner[root := p], trampoline, p, pr.(pagetable := Some(root), sz := 0))
    ensures |use1| == |use0| && pr.pagetable.value < |use0|
  {
    hide Leaf, Fixed, Owns;
    assert RoundUp(0) == 0;
  }

  /** exec() commits: the process gets the new address space and the old one is freed. */
  method Switch(k: ProcTable, p: nat, root: nat, sz: nat, sp: nat, entry: nat, ghost segs: seq<Segment>,
                ghost at: seq<nat>, ghost args: seq<seq<Byte>>, ghost ts0: Tables, ghost use0: seq<Use>, ghost pages0:
                seq<PageBytes>)
    requires Inv(ts0, use0, k.procs, k.owner, k.trampoline) && Wf(ts0, use0) && Back(ts0, use0)
    requires p < |k.procs| && k.procs[p].pagetable.Some? && root < |use0| == |k.owner| && !IsRoot(use0, root)
    requires Building(k.m, k.owner[root := p], k.trampoline, p, k.procs[p].(pagetable := Some(root)), sz)
    requires Others(ts0, use0, pages0, k.m.ts, k.m.use, k.m.pages, root, None)
    requires ImageOk(k.m.ts, k.m.pages, root, sz, segs, sp, at, args)
    modifies k`procs, k`owner, k.m
    ensures k.Valid() && k.procs == old(k.procs)[p := old(k.procs)[p].(pagetable := Some(root), sz := sz)]
    ensures !IsRoot(k.m.use, old(k.procs)[p].pagetable.value)
    ensures ImageOk(k.m.ts, k.m.pages, root, sz, segs, sp, at, args)
    ensures k.procs[p].trapframe.Some? && k.procs[p].trapframe.value < |k.m.pages|
    ensures Starts(k.m.pages[k.procs[p].trapframe.value], entry, sp)
    ensures OthersOfTwo(ts0, use0, pages0, k.m.ts, k.m.use, k.m.pages, root, None, old(k.procs)[p].pagetable.value,
                        Some(p))
    ensures Pids(pages0, old(k.procs)) ==> Pids(k.m.pages, k.procs)
  {
    hide NodeOk, Anchored, FreeOk, Leaf, Back, Others, Owns, Inv, Pids, Fixed, Belongs, StartFrame, Starts, Imaged;
    hide StackOk, Word64;
    hide OthersOfTwo;
    var m := k.m;
    ghost var ts1, use1, pages1, procs0, owner0 := m.ts, m.use, m.pages, k.procs, k.owner;
    var oldroot, oldsz := k.procs[p].pagetable.value, k.procs[p].sz;
    SlotAt(ts0, use0, k.procs, k.owner, k.trampoline, p);
    OldSpace(ts0, use0, pages0, m.ts, m.use, m.pages, k.owner, k.trampoline, p, k.procs[p], root);
    k.owner := k.owner[root := p];
    k.procs := k.procs[p := k.procs[p].(pagetable := Some(root), sz := sz)];
    ProcFreePagetable(m, oldroot, oldsz, k.trampoline, k.procs[p].trapframe.value, k.procs[p].usyscall.value);
    Switched(ts0, use0, pages0, procs0, owner0, ts1, use1, pages1, m.ts, m.use, m.pages, k.procs, k.owner, k.trampoline,
             oldroot, root, p, k.procs[p]);
    GoneRoot(use1, oldroot);
    OthersUser(ts1, use1, pages1, m.ts, m.use, m.pages, k.owner, k.trampoline, p, k.procs[p], oldroot);
    SameImage(ts1, pages1, m.ts, m.pages, root, sz / PGSIZE - 2, segs, sp, sz - PGSIZE, sz, at, args);
    SameSizes(ts1, use1, pages1, m.ts, m.use, m.pages, oldroot, None);
    SlotAt(m.ts, m.use, k.procs, k.owner, k.trampoline, p);
    var tf := k.procs[p].trapframe.value;
    ghost var ts2, use2, pages2 := m.ts, m.use, m.pages;
    FrameStarts(m.pages[tf], entry, sp);
    m.pages := m.pages[tf := StartFrame(m.pages[tf], entry, sp)];
    FrameStored(m.ts, m.use, pages2, k.procs, k.owner, m.pages, k.trampoline, p, oldroot);
    OthersMore(ts1, use1, pages1, ts2, use2, pages2, oldroot, Some(p));
    OthersTwice(ts1, use1, pages1, ts2, use2, pages2, m.ts, m.use, m.pages, oldroot, Some(p));
    OthersPair(ts0, use0, pages0, ts1, use1, pages1, m.ts, m.use, m.pages, root, None, oldroot, Some(p));
    StoredPids(pages2, m.pages, k.procs);
    FrameUser(m.ts, m.use, pages2, m.pages, k.owner, k.trampoline, p, k.procs[p]);
    SameImage(m.ts, pages2, m.ts, m.pages, root, sz / PGSIZE - 2, segs, sp, sz - PGSIZE, sz, at, args);
  }

  lemma GoneRoot(use: seq<Use>, root: nat)
    ensures !IsRoot(Freed(use, root, None), root)
  {
  }

  lemma StoredPids(pages0: seq<PageBytes>, pages1: seq<PageBytes>, procs: seq<Proc>)
    requires forall q :: 0 <= q < |procs| && HoldsPid(pages0, procs[q]) ==> HoldsPid(pages1, procs[q])
    ensures Pids(pages0, procs) ==> Pids(pages1, procs)
  {
  }

  /** The old address space is still whole when the new one is ready. */
  lemma OldSpace(ts0: Tables, use0: seq<Use>, pages0: seq<PageBytes>, ts1: Tables, use1: seq<Use>,
                 pages1: seq<PageBytes>, owner: seq<nat>, trampoline: nat, p: nat, pr: Proc, root: nat)
    requires SlotOk(ts0, use0, owner, trampoline, p, pr) && pr.pagetable.Some? && !IsRoot(use0, root)
    requires |owner| == |use0|
    requires Others(ts0, use0, pages0, ts1, use1, pages1, root, None)
    ensures IsRoot(use1, pr.pagetable.value) && Owns(ts1, use1, pr.pagetable.value, RoundUp(pr.sz))
    ensures Fixed(ts1, pr.pagetable.value, trampoline, pr.trapframe.value, pr.usyscall.value)
  {
    hide Leaf, Owns;
    SlotKept(ts0, use0, pages0, ts1, use1, pages1, owner, owner, trampoline, root, None, p, pr);
  }
}
