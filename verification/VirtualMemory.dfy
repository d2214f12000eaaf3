/** Physical page allocation (kernel/kalloc.c) and operations on address spaces (kernel/vm.c). */
module VirtualMemory {
  import opened Common
  import opened Sv39
  import opened PageTable
  import opened TearDown
  import opened FrameCount

  type PageBytes = s: seq<Byte> | |s| == PGSIZE witness seq(PGSIZE, _ => 0)

  /** memset(page, c, PGSIZE) */
  function Filled(c: Byte): (s: PageBytes)
    ensures forall i :: 0 <= i < PGSIZE ==> s[i] == c
  {
    seq(PGSIZE, (i: nat) => c)
  }

  /** The free list holds exactly the free frames, each once. */
  predicate FreeOk(free: seq<nat>, use: seq<Use>)
  {
    && Distinct(free)
    && (forall i :: 0 <= i < |free| ==> free[i] < |use| && use[free[i]].Free?)
    && (forall f :: 0 <= f < |use| && use[f].Free? ==> f in free)
  }

  /** No frame in use changed its use or contents; frames that were free may have become tables
      of root's tree. */
  ghost predicate NewTables(use0: seq<Use>, pages0: seq<PageBytes>, use1: seq<Use>, pages1: seq<PageBytes>, root: nat)
  {
    && |use1| == |use0| == |pages0| == |pages1|
    && (forall f :: 0 <= f < |use0| && !use0[f].Free? ==> use1[f] == use0[f] && pages1[f] == pages0[f])
    && (forall f :: 0 <= f < |use0| && use0[f].Free? ==> use1[f].Free? || (use1[f].Table? && use1[f].root == root))
  }

  /** The tree of root may have grown, but no address space changed. */
  ghost predicate Grew(ts0: Tables, use0: seq<Use>, pages0: seq<PageBytes>,
                       ts1: Tables, use1: seq<Use>, pages1: seq<PageBytes>, root: nat)
  {
    && |ts1| == |ts0| == |use0| && NewTables(use0, pages0, use1, pages1, root)
    && (forall q, w :: IsRoot(use0, q) ==> Leaf(ts1, q, w) == Leaf(ts0, q, w))
    && (forall f, k :: 0 <= f < |use0| && use0[f].Table? && 0 <= k < ENTRIES && Next(ts0, f, k).Some? ==>
          Next(ts1, f, k) == Next(ts0, f, k))
  }

  /** Outside pages [lo, hi) of root's address space, no address space changed. */
  ghost predicate OnlyPages(ts0: Tables, use0: seq<Use>, ts1: Tables, root: nat, lo: nat, hi: nat)
  {
    forall q, w :: IsRoot(use0, q) && 0 <= w < MAXVPN && !(q == root && lo <= w < hi) ==>
        Leaf(ts1, q, w) == Leaf(ts0, q, w)
  }

  /** Pages of physical memory between KERNBASE and PHYSTOP. */
  const NFRAMES := 32768

  /** The first page of the region above user memory: USYSCALL / PGSIZE. */
  const USERTOP := MAXVPN - 3

  /** A frame of user memory is mapped where it says. */
  ghost predicate Back(ts: Tables, use: seq<Use>)
  {
    forall f :: 0 <= f < |use| && use[f].Page? ==> MappedAt(ts, use, f)
  }

  ghost predicate MappedAt(ts: Tables, use: seq<Use>, f: nat)
    requires f < |use| && use[f].Page?
  {
    && IsRoot(use, use[f].root) && use[f].vpn < USERTOP
    && Leaf(ts, use[f].root, use[f].vpn).v && Leaf(ts, use[f].root, use[f].vpn).ppn == f
  }

  /** Page w of root is mapped to a frame of its own. */
  ghost predicate OwnPage(ts: Tables, use: seq<Use>, root: nat, w: nat)
  {
    Leaf(ts, root, w).v && Leaf(ts, root, w).ppn < |use| && use[Leaf(ts, root, w).ppn] == Page(root, w)
  }

  /** User memory is exactly pages [0, n), each in a frame of its own. */
  ghost predicate Owns(ts: Tables, use: seq<Use>, root: nat, n: nat)
  {
    && n <= USERTOP
    && (forall w :: 0 <= w < n ==> OwnPage(ts, use, root, w))
    && (forall w :: n <= w < USERTOP ==> Leaf(ts, root, w) == ZERO)
  }

  /** The uses after root's pages [lo, hi) have been given up. */
  function Released(use: seq<Use>, root: nat, lo: nat, hi: nat): (r: seq<Use>)
    ensures |r| == |use|
    ensures forall f :: 0 <= f < |use| ==>
              r[f] == if use[f].Page? && use[f].root == root && lo <= use[f].vpn < hi then Free else use[f]
  {
    seq(|use|, f requires 0 <= f < |use| =>
      if use[f].Page? && use[f].root == root && lo <= use[f].vpn < hi then Free else use[f])
  }

  /** Contents of frames whose use did not change. */
  ghost predicate SamePages(use0: seq<Use>, pages0: seq<PageBytes>, use1: seq<Use>, pages1: seq<PageBytes>)
  {
    && |use1| == |use0| == |pages1| == |pages0|
    && forall f :: 0 <= f < |use0| && use1[f] == use0[f] ==> pages1[f] == pages0[f]
  }

  lemma ReleaseStep(ts: Tables, use0: seq<Use>, use: seq<Use>, root: nat, lo: nat, a: nat, doFree: bool)
    requires Back(ts, use) && lo <= a && use == Released(use0, root, lo, a)
    requires if doFree then OwnPage(ts, use, root, a) else a >= USERTOP
    ensures (if doFree then use[Leaf(ts, root, a).ppn := Free] else use) == Released(use0, root, lo, a + 1)
  {
  }

  lemma OwnStays(ts0: Tables, use0: seq<Use>, ts1: Tables, use1: seq<Use>, root: nat, a: nat, w: nat)
    requires OwnPage(ts0, use0, root, a) && OwnPage(ts0, use0, root, w) && a != w && w < MAXVPN && IsRoot(use0, root)
    requires use1 == use0[Leaf(ts0, root, a).ppn := Free] && OnlyPages(ts0, use0, ts1, root, a, a + 1)
    ensures OwnPage(ts1, use1, root, w)
  {
  }

  /** Frames in use kept their use and contents; of the free ones, some became tables of root's
      tree and some its pages in [lo, hi). */
  ghost predicate Gained(use0: seq<Use>, pages0: seq<PageBytes>, use1: seq<Use>, pages1: seq<PageBytes>,
                         root: nat, lo: nat, hi: nat)
  {
    && |use1| == |use0| == |pages0| == |pages1|
    && (forall f :: 0 <= f < |use0| && !use0[f].Free? ==> use1[f] == use0[f] && pages1[f] == pages0[f])
    && (forall f :: 0 <= f < |use0| && use0[f].Free? ==>
          || use1[f].Free? || (use1[f].Table? && use1[f].root == root)
          || (use1[f].Page? && use1[f].root == root && lo <= use1[f].vpn < hi))
  }

  /** Page w is mapped with these permissions and holds these bytes. */
  ghost predicate HasContents(ts: Tables, pages: seq<PageBytes>, root: nat, w: nat, contents: PageBytes, perm: Perm)
  {
    var p := Leaf(ts, root, w);
    p == Pte(p.ppn, true, perm) && p.ppn < |pages| && pages[p.ppn] == contents
  }

  lemma OnePage(a: nat)
    ensures a * PGSIZE / PGSIZE == a && (a * PGSIZE + PGSIZE - 1) / PGSIZE == a
  {
  }

  /** Distinct pages in frames of their own: there are at most as many as frames. */
  lemma PagesFit(ts: Tables, use: seq<Use>, root: nat, n: nat)
    requires forall w :: 0 <= w < n ==> OwnPage(ts, use, root, w)
    ensures n <= |use|
  {
    var fs := Frames(ts, use, root, n);
    BoundedSet(fs, |use|);
  }

  lemma {:induction false} Frames(ts: Tables, use: seq<Use>, root: nat, n: nat) returns (fs: set<nat>)
    requires forall w :: 0 <= w < n ==> OwnPage(ts, use, root, w)
    ensures |fs| == n && forall f :: f in fs ==> f < |use| && use[f].Page? && use[f].vpn < n
  {
    hide Leaf;
    if n == 0 {
      fs := {};
    } else {
      fs := Frames(ts, use, root, n - 1);
      assert OwnPage(ts, use, root, n - 1);
      fs := fs + {Leaf(ts, root, n - 1).ppn};
    }
  }

  /** What one more page does to ownership, whether it succeeded or was undone. */
  lemma AddedPage(ts0: Tables, use0: seq<Use>, pages0: seq<PageBytes>, f: nat, contents: PageBytes,
                  ts1: Tables, use1: seq<Use>, pages1: seq<PageBytes>,
                  use2: seq<Use>, pages2: seq<PageBytes>, root: nat, a: nat, ok: bool, perm: Perm)
    requires Back(ts0, use0) && Owns(ts0, use0, root, a) && IsRoot(use0, root) && a < USERTOP
    requires |use0| == |pages0| && f < |use0| && use0[f].Free?
    requires NewTables(use0[f := Kernel], pages0[f := contents], use1, pages1, root)
    requires use2 == use1[f := if ok then Page(root, a) else Free]
    requires pages2 == if ok then pages1 else pages1[f := Filled(1)]
    requires OnlyPages(ts0, use0[f := Kernel], ts1, root, a, a + 1)
    requires Leaf(ts1, root, a) == if ok then Pte(f, true, perm) else Leaf(ts0, root, a)
    ensures Back(ts1, use2) && OnlyPages(ts0, use0, ts1, root, a, a + 1)
    ensures !ok ==> Owns(ts1, use2, root, a) && Gained(use0, pages0, use2, pages2, root, a, a)
    ensures ok ==> Owns(ts1, use2, root, a + 1) && Gained(use0, pages0, use2, pages2, root, a, a + 1)
    ensures ok ==> pages2[f] == contents
  {
    hide Leaf;
    var useK := use0[f := Kernel];
    forall g | 0 <= g < |use0| && !use0[g].Free?
      ensures g != f && use2[g] == use0[g] && pages2[g] == pages0[g]
    {
      assert useK[g] == use0[g];
    }
    forall q | IsRoot(use0, q)
      ensures IsRoot(useK, q) && IsRoot(use2, q)
    {
    }
    forall q, w | IsRoot(use0, q) && 0 <= w < MAXVPN && !(q == root && a <= w < a + 1)
      ensures Leaf(ts1, q, w) == Leaf(ts0, q, w)
    {
      assert IsRoot(useK, q);
    }
    forall w | 0 <= w < a
      ensures OwnPage(ts1, use2, root, w)
    {
      assert OwnPage(ts0, use0, root, w);
    }
    forall g | 0 <= g < |use2| && use2[g].Page? && g != f
      ensures MappedAt(ts1, use2, g)
    {
      assert useK[g] == use0[g];
      assert MappedAt(ts0, use0, g);
    }
  }

  lemma GainedMore(ts0: Tables, use0: seq<Use>, pages0: seq<PageBytes>, ts1: Tables, use1: seq<Use>,
                   pages1: seq<PageBytes>, ts2: Tables, use2: seq<Use>, pages2: seq<PageBytes>, root: nat, lo: nat, a:
                   nat, b: nat)
    requires Gained(use0, pages0, use1, pages1, root, lo, a) && Gained(use1, pages1, use2, pages2, root, a, b)
    requires OnlyPages(ts0, use0, ts1, root, lo, a) && OnlyPages(ts1, use1, ts2, root, a, a + 1)
    requires lo <= a <= b <= a + 1
    requires b == a ==> Leaf(ts2, root, a) == Leaf(ts1, root, a)
    ensures Gained(use0, pages0, use2, pages2, root, lo, b) && OnlyPages(ts0, use0, ts2, root, lo, b)
    ensures |use2| == |use0|
  {
    hide Leaf;
  }

  lemma ContentsKept(ts1: Tables, use1: seq<Use>, pages1: seq<PageBytes>, ts2: Tables, use2: seq<Use>,
                     pages2: seq<PageBytes>, root: nat, a: nat, w: nat, contents: PageBytes, perm: Perm)
    requires HasContents(ts1, pages1, root, w, contents, perm) && OwnPage(ts1, use1, root, w) && w < a < MAXVPN
    requires IsRoot(use1, root)
    requires Gained(use1, pages1, use2, pages2, root, a, a + 1) && OnlyPages(ts1, use1, ts2, root, a, a + 1)
    ensures HasContents(ts2, pages2, root, w, contents, perm)
  {
  }

  /** Giving back the pages gained leaves at most new tables. */
  lemma GainUndone(ts0: Tables, use0: seq<Use>, pages0: seq<PageBytes>, ts2: Tables, use2: seq<Use>,
                   pages2: seq<PageBytes>, ts3: Tables, use3: seq<Use>, pages3: seq<PageBytes>, root: nat, lo: nat, a:
                   nat)
    requires Gained(use0, pages0, use2, pages2, root, lo, a) && Back(ts0, use0) && Owns(ts0, use0, root, lo)
    requires use3 == Released(use2, root, lo, a) && SamePages(use2, pages2, use3, pages3) && a <= USERTOP
    requires OnlyPages(ts0, use0, ts2, root, lo, a) && OnlyPages(ts2, use2, ts3, root, lo, a)
    requires Owns(ts3, use3, root, lo)
    ensures Gained(use0, pages0, use3, pages3, root, lo, lo) && OnlyPages(ts0, use0, ts3, root, lo, lo)
  {
    hide Leaf;
  }

  lemma RoundUpExact(a: nat)
    ensures RoundUp(a * PGSIZE) == a
  {
  }

  lemma RoundUpReached(a: nat, sz: nat)
    requires a * PGSIZE >= sz && a <= RoundUp(sz)
    ensures a == RoundUp(sz)
  {
  }

  lemma NotReached(a: nat, sz: nat)
    requires a * PGSIZE < sz
    ensures a < RoundUp(sz)
  {
  }

  lemma NothingGained(ts: Tables, use: seq<Use>, pages: seq<PageBytes>, root: nat, lo: nat)
    requires |pages| == |use|
    ensures Gained(use, pages, use, pages, root, lo, lo) && OnlyPages(ts, use, ts, root, lo, lo)
  {
  }

  /** Page w reads the same in both address spaces, and has the same permissions. */
  ghost predicate Copied(ts: Tables, pages: seq<PageBytes>, parent: nat, child: nat, w: nat)
  {
    var p, q := Leaf(ts, parent, w), Leaf(ts, child, w);
    p.v && q.v && p.perm == q.perm && p.ppn < |pages| && q.ppn < |pages| && pages[p.ppn] == pages[q.ppn]
  }

  lemma LeafPerm(ts: Tables, use: seq<Use>, r: nat, v: nat)
    requires Wf(ts, use) && IsRoot(use, r) && Leaf(ts, r, v).v
    ensures Leaf(ts, r, v).perm.Leaf()
  {
  }

  lemma OwnedInRange(ts: Tables, use: seq<Use>, root: nat, w: nat)
    requires OwnPage(ts, use, root, w)
    ensures Leaf(ts, root, w).ppn < |use|
  {
  }

  lemma ParentKept(ts1: Tables, use1: seq<Use>, pages1: seq<PageBytes>, ts2: Tables, use2: seq<Use>,
                   pages2: seq<PageBytes>, parent: nat, child: nat, n: nat, a: nat, b: nat)
    requires Owns(ts1, use1, parent, n) && parent != child && IsRoot(use1, parent)
    requires Gained(use1, pages1, use2, pages2, child, a, b) && OnlyPages(ts1, use1, ts2, child, a, a + 1)
    ensures Owns(ts2, use2, parent, n) && IsRoot(use2, parent)
  {
    hide Leaf;
    forall w | 0 <= w < n
      ensures OwnPage(ts2, use2, parent, w)
    {
      assert OwnPage(ts1, use1, parent, w);
    }
  }

  lemma CopiedKept(ts1: Tables, use1: seq<Use>, pages1: seq<PageBytes>, ts2: Tables, use2: seq<Use>,
                   pages2: seq<PageBytes>, parent: nat, child: nat, n: nat, i: nat, w: nat)
    requires Owns(ts1, use1, parent, n) && Owns(ts1, use1, child, i) && parent != child && w <= i < n
    requires IsRoot(use1, parent) && IsRoot(use1, child)
    requires Gained(use1, pages1, use2, pages2, child, i, i + 1) && OnlyPages(ts1, use1, ts2, child, i, i + 1)
    requires w < i ==> Copied(ts1, pages1, parent, child, w)
    requires var p := Leaf(ts1, parent, i);
             p.v && p.ppn < |pages1| && HasContents(ts2, pages2, child, i, pages1[p.ppn], p.perm)
    ensures Copied(ts2, pages2, parent, child, w)
  {
    hide Leaf;
    assert OwnPage(ts1, use1, parent, w);
    if w < i {
      assert OwnPage(ts1, use1, child, w);
    }
  }

  /** Changing the flags of a mapped page affects no ownership. */
  lemma BackRemapped(ts0: Tables, ts1: Tables, use: seq<Use>, root: nat, v: nat)
    requires Back(ts0, use) && OnlyPages(ts0, use, ts1, root, v, v + 1)
    requires Leaf(ts1, root, v).v && Leaf(ts1, root, v).ppn == Leaf(ts0, root, v).ppn
    ensures Back(ts1, use)
    ensures forall q, n :: IsRoot(use, q) && Owns(ts0, use, q, n) && (v < n || q != root || v >= USERTOP) ==>
            Owns(ts1, use, q, n)
  {
    hide Leaf;
    forall f | 0 <= f < |use| && use[f].Page?
      ensures MappedAt(ts1, use, f)
    {
      assert MappedAt(ts0, use, f);
    }
    forall q, n | IsRoot(use, q) && Owns(ts0, use, q, n) && (v < n || q != root || v >= USERTOP)
      ensures Owns(ts1, use, q, n)
    {
      forall w | 0 <= w < n
        ensures OwnPage(ts1, use, q, w)
      {
        assert OwnPage(ts0, use, q, w);
      }
    }
  }

  lemma GrewNot(ts: Tables, use: seq<Use>, pages: seq<PageBytes>, root: nat)
    requires |use| == |ts| == |pages|
    ensures Grew(ts, use, pages, ts, use, pages, root)
  {
  }

  lemma GrewTwice(ts0: Tables, use0: seq<Use>, pages0: seq<PageBytes>, ts1: Tables, use1: seq<Use>,
                  pages1: seq<PageBytes>, ts2: Tables, use2: seq<Use>, pages2: seq<PageBytes>, root: nat)
    requires Grew(ts0, use0, pages0, ts1, use1, pages1, root) && Grew(ts1, use1, pages1, ts2, use2, pages2, root)
    ensures Grew(ts0, use0, pages0, ts2, use2, pages2, root)
  {
  }

  class Memory {
    /** kmem.freelist, first to be allocated first. */
    var free: seq<nat>
    /** Each frame seen as a page table, and as 4096 bytes; use says which of the two it is. */
    var ts: Tables
    var pages: seq<PageBytes>
    ghost var use: seq<Use>

    ghost predicate Valid()
      reads this
    {
      Wf(ts, use) && |pages| == |ts| && FreeOk(free, use)
    }

    /** All frames are the kernel's until freerange() gives some away. */
    constructor (nframes: nat)
      ensures Valid() && free == [] && |ts| == |pages| == |use| == nframes && forall f :: 0 <= f < nframes ==>
              use[f] == Kernel
    {
      free := [];
      ts := seq(nframes, (i: nat) => ZeroTable());
      pages := seq(nframes, (i: nat) => Filled(0));
      use := seq(nframes, (i: nat) => Kernel);
    }

    /** kalloc(): the first frame of the free list, filled with junk, for the caller alone. */
    method Kalloc() returns (r: Option<nat>)
      requires Valid()
      modifies this`free, this`pages, this`use
      ensures Valid() && (r.None? <==> old(free) == [])
      ensures r.None? ==> free == old(free) && pages == old(pages) && use == old(use)
      ensures r.Some? ==> r.value == old(free)[0] < |use| && free == old(free)[1..]
      ensures r.Some? ==> use == old(use)[r.value := Kernel] && pages == old(pages)[r.value := Filled(5)]
    {
      hide NodeOk, Anchored;
      if free == [] {
        return None;
      }
      var f := free[0];
      KernelUse(ts, use, f, Kernel);
      free := free[1..];
      pages := pages[f := Filled(5)];
      use := use[f := Kernel];
      r := Some(f);
    }

    /** kfree() of a frame that the caller owns. */
    method Kfree(f: nat)
      requires FreeOk(free, use) && |pages| == |use| && f < |use| && !use[f].Free?
      modifies this`free, this`pages, this`use
      ensures FreeOk(free, use) && free == [f] + old(free)
      ensures use == old(use)[f := Free] && pages == old(pages)[f := Filled(1)]
    {
      pages := pages[f := Filled(1)];
      free := [f] + free;
      use := use[f := Free];
    }

    /** freerange(): the kernel gives pages [lo, hi) to the allocator. */
    method FreeRange(lo: nat, hi: nat)
      requires Valid() && lo <= hi <= |use| && forall f :: lo <= f < hi ==> use[f] == Kernel
      modifies this`free, this`pages, this`use
      ensures Valid() && |use| == |old(use)| && |free| == |old(free)| + hi - lo
      ensures forall f :: 0 <= f < |use| ==> use[f] == if lo <= f < hi then Free else old(use)[f]
    {
      hide NodeOk, Anchored, FreeOk;
      var f := lo;
      while f < hi
        invariant lo <= f <= hi && Valid() && |use| == |old(use)| && |free| == |old(free)| + f - lo
        invariant forall g :: 0 <= g < |use| ==> use[g] == if lo <= g < f then Free else old(use)[g]
      {
        KernelUse(ts, use, f, Free);
        Kfree(f);
        f := f + 1;
      }
    }

    /** walk(): the lowest-level table for page v; with alloc, exactly the missing tables on the way are made.
        None means that a table is missing, and with alloc that there are too few free frames for them. */
    method Walk(root: nat, v: nat, alloc: bool) returns (t: Option<nat>)
      requires Valid() && IsRoot(use, root) && v < MAXVPN
      modifies this
      ensures Valid() && Grew(old(ts), old(use), old(pages), ts, use, pages, root)
      ensures t.Some? ==> t == LowOf(ts, root, v)
      ensures !alloc || old(LowOf(ts, root, v)).Some? ==>
                && t == old(LowOf(ts, root, v))
                && free == old(free) && ts == old(ts) && pages == old(pages) && use == old(use)
      ensures alloc ==> (t.None? <==> |old(free)| < Missing(old(ts), root, v))
      ensures alloc && t.Some? ==>
                |free| == |old(free)| - Missing(old(ts), root, v) && Made(old(ts), ts, root, v, v + 1)
    {
      hide Wf, FreeOk, Grew, Leaf, NodeOk, Anchored, Px, OneTable, Made;
      ghost var ts0, use0, pages0 := ts, use, pages;
      PxTop(v);
      var m := Step(root, Px(2, v), alloc);
      if m.None? {
        return None;
      }
      ghost var ts1, use1, pages1 := ts, use, pages;
      GrewNext(ts0, use0, pages0, ts1, use1, pages1, root, root, Px(2, v));
      MissingThere(ts0, use0, ts1, root, v, m.value);
      t := Step(m.value, Px(1, v), alloc);
      GrewNext(ts1, use1, pages1, ts, use, pages, root, root, Px(2, v));
      GrewTwice(ts0, use0, pages0, ts1, use1, pages1, ts, use, pages, root);
      if t.Some? {
        GrewTables(ts0, use0, pages0, ts1, use1, pages1, root);
        WalkMade(ts0, use0, ts1, use1, ts, root, v, m.value, t.value);
      }
    }

    /** mappages(): pages first..last of the range now map to consecutive frames from ppn on. It fails if
        and only if there are fewer free frames than tables to make, and then the first done pages of the
        range are mapped. */
    method MapPages(root: nat, va: nat, size: nat, ppn: nat, perm: Perm) returns (ok: bool, ghost done: nat)
      requires Valid() && IsRoot(use, root) && size > 0 && va + size <= MAXVPN * PGSIZE && perm.Leaf()
      requires forall w :: va / PGSIZE <= w <= (va + size - 1) / PGSIZE ==> !Leaf(ts, root, w).v
      modifies this
      ensures Valid() && IsRoot(use, root) && NewTables(old(use), old(pages), use, pages, root)
      ensures var first, last := va / PGSIZE, (va + size - 1) / PGSIZE;
              && OnlyPages(old(ts), old(use), ts, root, first, first + done)
              && (forall w :: first <= w < first + done ==> Leaf(ts, root, w) == Pte(ppn + w - first, true, perm))
              && (if ok then done == last - first + 1 else done <= last - first)
              && (ok <==> |old(free)| >= TablesFor(old(ts), root, first, last + 1))
              && (ok ==> |free| == |old(free)| - TablesFor(old(ts), root, first, last + 1))
              && (ok ==> Made(old(ts), ts, root, first, last + 1))
    {
      hide NodeOk, Anchored, FreeOk, Leaf, Made, TablesFor, OnlyPages, NewTables;
      var first, last := va / PGSIZE, (va + size - 1) / PGSIZE;
      assert last < MAXVPN;
      ok, done := MapRange(root, first, last, ppn, perm);
    }

    /** The loop of mappages(). */
    method MapRange(root: nat, first: nat, last: nat, ppn: nat, perm: Perm) returns (ok: bool, ghost done: nat)
      requires Valid() && IsRoot(use, root) && first <= last < MAXVPN && perm.Leaf()
      requires forall w :: first <= w <= last ==> !Leaf(ts, root, w).v
      modifies this
      ensures Valid() && IsRoot(use, root) && NewTables(old(use), old(pages), use, pages, root)
      ensures OnlyPages(old(ts), old(use), ts, root, first, first + done)
      ensures forall w :: first <= w < first + done ==> Leaf(ts, root, w) == Pte(ppn + w - first, true, perm)
      ensures if ok then done == last - first + 1 else done <= last - first
      ensures ok <==> |old(free)| >= TablesFor(old(ts), root, first, last + 1)
      ensures ok ==>
                && |free| == |old(free)| - TablesFor(old(ts), root, first, last + 1)
                && Made(old(ts), ts, root, first, last + 1)
    {
      hide NodeOk, Anchored, FreeOk, Px, Leaf, LowOf, Made, Missing, TablesFor, OnlyPages;
      NoFrames(ts, root, first, first);
      NoPages(ts, root, first);
      OnlyNone(ts, use, root, first);
      ghost var ts0, use0, pages0 := ts, use, pages;
      var a, pa := first, ppn;
      done := 0;
      while true
        invariant first <= a <= last && done == a - first && pa == ppn + done
        invariant Valid() && IsRoot(use, root) && NewTables(use0, pages0, use, pages, root)
        invariant OnlyPages(ts0, use0, ts, root, first, a)
        invariant forall w :: first <= w < a ==> Leaf(ts, root, w) == Pte(ppn + w - first, true, perm)
        invariant forall w :: a <= w <= last ==> !Leaf(ts, root, w).v
        invariant |free| == |old(free)| - TablesFor(ts0, root, first, a) && Made(ts0, ts, root, first, a)
        decreases last - a
      {
        ghost var ts1, use1, pages1 := ts, use, pages;
        OnePageMore(ts0, ts, root, first, a);
        var mapped := MapOne(root, a, pa, perm);
        OnlyMore(ts0, use0, pages0, ts1, use1, pages1, ts, use, pages, root, first, a, mapped);
        if !mapped {
          NeedsMore(ts0, root, first, a + 1, last + 1);
          return false, done;
        }
        MadeMore(ts0, ts1, ts, root, first, a);
        if a == last {
          done := done + 1;
          return true, done;
        }
        a, pa, done := a + 1, pa + 1, done + 1;
      }
    }

    /** walk() with alloc, then store the entry. */
    method MapOne(root: nat, v: nat, ppn: nat, perm: Perm) returns (ok: bool)
      requires Valid() && IsRoot(use, root) && v < MAXVPN && perm.Leaf() && !Leaf(ts, root, v).v
      modifies this
      ensures Valid() && IsRoot(use, root) && NewTables(old(use), old(pages), use, pages, root)
      ensures OnlyPages(old(ts), old(use), ts, root, v, v + 1)
      ensures Leaf(ts, root, v) == if ok then Pte(ppn, true, perm) else old(Leaf(ts, root, v))
      ensures ok <==> |old(free)| >= Missing(old(ts), root, v)
      ensures ok ==> |free| == |old(free)| - Missing(old(ts), root, v) && Made(old(ts), ts, root, v, v + 1)
    {
      hide NodeOk, Anchored, FreeOk, Px, Leaf, LowOf, Made, Missing;
      ghost var ts0 := ts;
      var t := Walk(root, v, true);
      if t.None? {
        return false;
      }
      LowUse(ts, use, root, v);
      LeafMade(ts, use, root, v, Px(0, v), Pte(ppn, true, perm));
      MadeThen(ts0, ts, SetEntry(ts, t.value, Px(0, v), Pte(ppn, true, perm)), root, v, v + 1);
      SetLeaf(ts, use, root, v, Pte(ppn, true, perm));
      ts := ts[t.value := ts[t.value][Px(0, v) := Pte(ppn, true, perm)]];
      ok := true;
    }

    /** uvmunmap(): the pages, all of them mapped, are unmapped, and with doFree their frames freed. */
    method UvmUnmap(root: nat, v: nat, npages: nat, doFree: bool)
      requires Valid() && Back(ts, use) && IsRoot(use, root) && v + npages <= MAXVPN
      requires forall w :: v <= w < v + npages ==> Leaf(ts, root, w).v
      requires doFree ==> forall w :: v <= w < v + npages ==> OwnPage(ts, use, root, w)
      requires !doFree ==> v >= USERTOP
      modifies this
      ensures Valid() && Back(ts, use) && IsRoot(use, root)
      ensures use == Released(old(use), root, v, v + npages) && SamePages(old(use), old(pages), use, pages)
      ensures OnlyPages(old(ts), old(use), ts, root, v, v + npages)
      ensures forall w :: v <= w < v + npages ==> Leaf(ts, root, w) == ZERO
    {
      hide NodeOk, Anchored, FreeOk, Leaf, Back, OwnPage;
      ghost var ts0, use0, pages0 := ts, use, pages;
      assert use == Released(use0, root, v, v);
      var a := v;
      while a < v + npages
        invariant v <= a <= v + npages && Valid() && Back(ts, use) && IsRoot(use, root)
        invariant use == Released(use0, root, v, a) && SamePages(use0, pages0, use, pages)
        invariant OnlyPages(ts0, use0, ts, root, v, a)
        invariant forall w :: v <= w < a ==> Leaf(ts, root, w) == ZERO
        invariant forall w :: a <= w < v + npages ==> Leaf(ts, root, w).v
        invariant doFree ==> forall w :: a <= w < v + npages ==> OwnPage(ts, use, root, w)
      {
        ReleaseStep(ts, use0, use, root, v, a, doFree);
        ghost var ts1, use1 := ts, use;
        UnmapOne(root, a, doFree);
        forall w | doFree && a + 1 <= w < v + npages
          ensures OwnPage(ts, use, root, w)
        {
          OwnStays(ts1, use1, ts, use, root, a, w);
        }
        a := a + 1;
      }
    }

    /** One turn of uvmunmap()'s loop. */
    method UnmapOne(root: nat, a: nat, doFree: bool)
      requires Valid() && Back(ts, use) && IsRoot(use, root) && a < MAXVPN && Leaf(ts, root, a).v
      requires if doFree then OwnPage(ts, use, root, a) else a >= USERTOP
      modifies this
      ensures Valid() && Back(ts, use) && IsRoot(use, root)
      ensures use == if doFree then old(use)[old(Leaf(ts, root, a)).ppn := Free] else old(use)
      ensures SamePages(old(use), old(pages), use, pages)
      ensures OnlyPages(old(ts), old(use), ts, root, a, a + 1) && Leaf(ts, root, a) == ZERO
    {
      hide Wf, FreeOk, Leaf, LowOf, Px;
      ghost var ts0, use0 := ts, use;
      LeafLow(ts, root, a);
      var t := Walk(root, a, false);
      LowUse(ts, use, root, a);
      var p := ts[t.value][Px(0, a)];
      if doFree {
        KernelUse(ts, use, p.ppn, Free);
        Kfree(p.ppn);
      }
      SetLeaf(ts, use, root, a, ZERO);
      ts := ts[t.value := ts[t.value][Px(0, a) := ZERO]];
      BackUnmapped(ts0, use0, ts, use, root, a, doFree);
    }

    /** freewalk() at table f: it and every table below it become free, nothing else changes. The
        panic is ruled out: a bare tree maps no memory. */
    method FreeWalk(f: nat)
      requires |ts| == |use| == |pages| && FreeOk(free, use) && f < |use| && use[f].Table?
      requires Bare(ts, use, use[f].root, use[f].slot) && Sole(use, f, use[f].root, use[f].slot)
      modifies this
      ensures |ts| == |use| == |pages| && FreeOk(free, use)
      ensures use == Torn(old(use), old(use[f]).root, old(use[f]).slot)
      ensures Untouched(old(ts), old(use), ts, old(use[f]).root, old(use[f]).slot)
      ensures SamePages(old(use), old(pages), use, pages)
      decreases Height(use[f].slot)
    {
      hide FreeOk, Bare, Hangs;
      ghost var ts0, use0, pages0 := ts, use, pages;
      ghost var r, s := use[f].root, use[f].slot;
      AtStart(ts0, use0, f, r, s);
      var i := 0;
      while i < ENTRIES
        invariant 0 <= i <= ENTRIES && |pages| == |use| && FreeOk(free, use)
        invariant AtEntry(ts0, use0, ts, use, f, r, s, i) && SamePages(use0, pages0, use, pages)
      {
        var pte := ts[f][i];
        if pte.v {
          ChildBare(ts0, use0, ts, use, f, r, s, i);
        }
        if pte.v && !pte.perm.Leaf() {
          ghost var ts1, use1 := ts, use;
          FreeWalk(pte.ppn);
          ChildFreed(ts0, use0, ts1, use1, ts, use, f, r, s, i);
          ts := ts[f := ts[f][i := ZERO]];
        } else {
          assert !pte.v;
          NoBranch(ts0, use0, ts, use, f, r, s, i);
        }
        i := i + 1;
      }
      AllFreed(ts0, use0, ts, use, f, r, s);
      Kfree(f);
    }

    /** uvmfree(): free the user memory, then the page tables. */
    method UvmFree(root: nat, sz: nat)
      requires Valid() && Back(ts, use) && IsRoot(use, root) && Owns(ts, use, root, RoundUp(sz))
      requires forall w :: USERTOP <= w < MAXVPN ==> Leaf(ts, root, w) == ZERO
      modifies this
      ensures Valid() && Back(ts, use) && SamePages(old(use), old(pages), use, pages)
      ensures use == Torn(Released(old(use), root, 0, RoundUp(sz)), root, Root)
      ensures forall q, w :: q != root && IsRoot(old(use), q) && 0 <= w < MAXVPN ==>
              Leaf(ts, q, w) == old(Leaf(ts, q, w))
    {
      hide NodeOk, Anchored, FreeOk, Leaf;
      OwnedMapped(ts, use, root, 0, RoundUp(sz));
      if sz > 0 {
        UvmUnmap(root, 0, RoundUp(sz), true);
      } else {
        assert use == Released(use, root, 0, 0);
      }
      ghost var ts1, use1 := ts, use;
      EmptyIsBare(ts, use, root);
      FreeWalk(root);
      TornWf(ts1, use1, ts, root);
      BackTorn(ts1, use1, ts, root);
    }

    /** uvmcreate(): an empty address space. */
    method UvmCreate() returns (r: Option<nat>)
      requires Valid() && Back(ts, use)
      modifies this
      ensures Valid() && Back(ts, use) && (r.None? <==> old(free) == [])
      ensures r.None? ==> free == old(free) && ts == old(ts) && pages == old(pages) && use == old(use)
      ensures r.Some? ==> r.value == old(free)[0] < |use| && free == old(free)[1..]
      ensures r.Some? ==> use == old(use)[r.value := Table(r.value, Root)] && pages == old(pages)[r.value := Filled(5)]
      ensures r.Some? ==> forall w :: 0 <= w < MAXVPN ==> Leaf(ts, r.value, w) == ZERO && !MidAt(ts, r.value, w)
      ensures forall q, w :: IsRoot(old(use), q) && 0 <= w < MAXVPN ==> Leaf(ts, q, w) == old(Leaf(ts, q, w))
    {
      hide NodeOk, Anchored, Leaf, FreeOk;
      ghost var ts0, use0 := ts, use;
      FirstFree(free, use);
      r := Kalloc();
      if r.Some? {
        NewRoot(ts, use, r.value);
        InUse(free, use, r.value, Table(r.value, Root));
        use := use[r.value := Table(r.value, Root)];
        ts := ts[r.value := ZeroTable()];
        ZeroRoot(ts, r.value);
        BackKept(ts0, use0, ts, use);
      }
    }

    /** uvmdealloc(): user memory shrinks to newsz. */
    method UvmDealloc(root: nat, oldsz: nat, newsz: nat) returns (r: nat)
      requires Valid() && Back(ts, use) && IsRoot(use, root) && Owns(ts, use, root, RoundUp(oldsz))
      modifies this
      ensures Valid() && Back(ts, use) && IsRoot(use, root)
      ensures r == if newsz >= oldsz then oldsz else newsz
      ensures Owns(ts, use, root, RoundUp(r)) && OnlyPages(old(ts), old(use), ts, root, RoundUp(r), RoundUp(oldsz))
      ensures use == Released(old(use), root, RoundUp(r), RoundUp(oldsz)) && SamePages(old(use), old(pages), use, pages)
    {
      hide NodeOk, Anchored, Leaf, FreeOk, Back, OwnPage;
      if newsz >= oldsz {
        assert use == Released(use, root, RoundUp(oldsz), RoundUp(oldsz));
        return oldsz;
      }
      RoundUpMonotone(newsz, oldsz);
      ghost var ts0, use0 := ts, use;
      OwnedMapped(ts, use, root, RoundUp(newsz), RoundUp(oldsz));
      if RoundUp(newsz) < RoundUp(oldsz) {
        UvmUnmap(root, RoundUp(newsz), RoundUp(oldsz) - RoundUp(newsz), true);
        OwnsLess(ts0, use0, ts, use, root, RoundUp(newsz), RoundUp(oldsz));
      } else {
        assert use == Released(use, root, RoundUp(newsz), RoundUp(oldsz));
      }
      r := newsz;
    }

    /** uvmalloc(): user memory grows to newsz, by zeroed pages with the given permissions. If there are
        too few free frames for the pages and their tables, it is back at the old size and the result is 0. */
    method UvmAlloc(root: nat, oldsz: nat, newsz: nat, perm: Perm) returns (r: nat, ghost ok: bool)
      requires Valid() && Back(ts, use) && IsRoot(use, root) && Owns(ts, use, root, RoundUp(oldsz))
      requires |use| < USERTOP && perm.Leaf()
      modifies this
      ensures Valid() && Back(ts, use) && IsRoot(use, root)
      ensures r == if newsz < oldsz then oldsz else if ok then newsz else 0
      ensures var lo, hi := RoundUp(oldsz), RoundUp(if ok && newsz > oldsz then newsz else oldsz);
              && Owns(ts, use, root, hi) && Gained(old(use), old(pages), use, pages, root, lo, hi)
              && OnlyPages(old(ts), old(use), ts, root, lo, hi)
              && forall w :: lo <= w < hi ==> HasContents(ts, pages, root, w, Filled(0), perm)
      ensures ok <==> |old(free)| >= FramesFor(old(ts), root, RoundUp(oldsz), RoundUp(newsz))
      ensures ok ==> |free| == |old(free)| - FramesFor(old(ts), root, RoundUp(oldsz), RoundUp(newsz))
      ensures ok ==> Made(old(ts), ts, root, RoundUp(oldsz), RoundUp(newsz))
    {
      hide NodeOk, Anchored, Leaf, FreeOk, Back, OwnPage, FramesFor, Missing, Made, Gained, OnlyPages;
      ok := true;
      ghost var top := RoundUp(newsz);
      NothingGained(ts, use, pages, root, RoundUp(oldsz));
      if newsz < oldsz {
        RoundUpMonotone(newsz, oldsz);
        NoFrames(ts, root, RoundUp(oldsz), top);
      } else {
        NoFrames(ts, root, RoundUp(oldsz), RoundUp(oldsz));
      }
      if newsz < oldsz {
        return oldsz, true;
      }
      RoundUpMonotone(oldsz, newsz);
      ghost var ts0, use0, pages0 := ts, use, pages;
      var lo := RoundUp(oldsz);
      var a := lo;
      while a * PGSIZE < newsz
        invariant lo <= a <= RoundUp(newsz) && Valid() && Back(ts, use) && IsRoot(use, root)
        invariant Owns(ts, use, root, a) && Gained(use0, pages0, use, pages, root, lo, a)
        invariant OnlyPages(ts0, use0, ts, root, lo, a) && |use| == |use0|
        invariant forall w :: lo <= w < a ==> HasContents(ts, pages, root, w, Filled(0), perm)
        invariant |free| == |old(free)| - FramesFor(ts0, root, lo, a) && Made(ts0, ts, root, lo, a)
        decreases newsz - a * PGSIZE
      {
        PagesFit(ts, use, root, a);
        NotReached(a, newsz);
        OneFrameMore(ts0, ts, root, lo, a, top);
        ghost var ts1, use1, pages1 := ts, use, pages;
        var grown := AddPage(root, a, Filled(0), perm);
        if !grown {
          GainedMore(ts0, use0, pages0, ts1, use1, pages1, ts, use, pages, root, lo, a, a);
          ghost var ts2, use2, pages2 := ts, use, pages;
          RoundUpExact(a);
          RoundUpExact(lo);
          var sz := UvmDealloc(root, a * PGSIZE, lo * PGSIZE);
          GainUndone(ts0, use0, pages0, ts2, use2, pages2, ts, use, pages, root, lo, a);
          return 0, false;
        }
        GainedMore(ts0, use0, pages0, ts1, use1, pages1, ts, use, pages, root, lo, a, a + 1);
        MadeMore(ts0, ts1, ts, root, lo, a);
        forall w | lo <= w < a
          ensures HasContents(ts, pages, root, w, Filled(0), perm)
        {
          ContentsKept(ts1, use1, pages1, ts, use, pages, root, a, w, Filled(0), perm);
        }
        a := a + 1;
      }
      RoundUpReached(a, newsz);
      r := newsz;
    }

    /** One turn of uvmalloc()'s loop (and, with another page's contents, of uvmcopy()'s): a fresh
        frame with the given contents at page a, or no change when memory runs out. */
    method AddPage(root: nat, a: nat, contents: PageBytes, perm: Perm) returns (ok: bool)
      requires Valid() && Back(ts, use) && IsRoot(use, root) && Owns(ts, use, root, a) && a < USERTOP && perm.Leaf()
      modifies this
      ensures Valid() && Back(ts, use) && IsRoot(use, root)
      ensures OnlyPages(old(ts), old(use), ts, root, a, a + 1)
      ensures !ok ==> Owns(ts, use, root, a) && Gained(old(use), old(pages), use, pages, root, a, a)
      ensures ok ==> Owns(ts, use, root, a + 1) && Gained(old(use), old(pages), use, pages, root, a, a + 1)
      ensures ok ==> HasContents(ts, pages, root, a, contents, perm)
      ensures ok <==> |old(free)| >= 1 + Missing(old(ts), root, a)
      ensures ok ==> |free| == |old(free)| - 1 - Missing(old(ts), root, a) && Made(old(ts), ts, root, a, a + 1)
    {
      hide NodeOk, Anchored, Leaf, FreeOk, Back, Missing, TablesFor, Made;
      ghost var ts0, use0, pages0 := ts, use, pages;
      FirstFree(free, use);
      var mem := Kalloc();
      if mem.None? {
        return false;
      }
      pages := pages[mem.value := contents];
      assert pages == pages0[mem.value := contents];
      OnePage(a);
      OnePageOnly(ts, root, a);
      ghost var done;
      ok, done := MapPages(root, a * PGSIZE, PGSIZE, mem.value, perm);
      ghost var use1, pages1 := use, pages;
      if !ok {
        KernelUse(ts, use, mem.value, Free);
        Kfree(mem.value);
      } else {
        KernelUse(ts, use, mem.value, Page(root, a));
        InUse(free, use, mem.value, Page(root, a));
        use := use[mem.value := Page(root, a)];
      }
      AddedPage(ts0, use0, pages0, mem.value, contents, ts, use1, pages1, use, pages, root, a, ok, perm);
    }

    /** uvmcopy(): the child's user memory becomes a copy of the parent's, in frames of its own; if there
        are too few free frames for it, the child has none. */
    method UvmCopy(parent: nat, child: nat, sz: nat) returns (ok: bool)
      requires Valid() && Back(ts, use) && IsRoot(use, parent) && IsRoot(use, child) && parent != child
      requires Owns(ts, use, parent, RoundUp(sz)) && Owns(ts, use, child, 0)
      modifies this
      ensures Valid() && Back(ts, use) && IsRoot(use, parent) && IsRoot(use, child)
      ensures var n := if ok then RoundUp(sz) else 0;
              && Owns(ts, use, child, n) && Gained(old(use), old(pages), use, pages, child, 0, n)
              && OnlyPages(old(ts), old(use), ts, child, 0, n)
              && forall w :: 0 <= w < n ==> Copied(ts, pages, parent, child, w)
      ensures ok <==> |old(free)| >= FramesFor(old(ts), child, 0, RoundUp(sz))
      ensures ok ==> |free| == |old(free)| - FramesFor(old(ts), child, 0, RoundUp(sz))
    {
      hide NodeOk, Anchored, Leaf, FreeOk, Back, OwnPage, FramesFor, Missing, Made, Gained, OnlyPages;
      ghost var ts0, use0, pages0 := ts, use, pages;
      NothingGained(ts, use, pages, child, 0);
      NoFrames(ts, child, 0, 0);
      var i := 0;
      while i * PGSIZE < sz
        invariant 0 <= i <= RoundUp(sz) && Valid() && Back(ts, use) && IsRoot(use, parent) && IsRoot(use, child)
        invariant Owns(ts, use, parent, RoundUp(sz)) && Owns(ts, use, child, i)
        invariant Gained(use0, pages0, use, pages, child, 0, i) && OnlyPages(ts0, use0, ts, child, 0, i)
        invariant forall w :: 0 <= w < i ==> Copied(ts, pages, parent, child, w)
        invariant |free| == |old(free)| - FramesFor(ts0, child, 0, i) && Made(ts0, ts, child, 0, i)
        decreases sz - i * PGSIZE
      {
        NotReached(i, sz);
        OneFrameMore(ts0, ts, child, 0, i, RoundUp(sz));
        OwnedMapped(ts, use, parent, 0, RoundUp(sz));
        LeafLow(ts, parent, i);
        LowUse(ts, use, parent, i);
        LeafPerm(ts, use, parent, i);
        assert OwnPage(ts, use, parent, i);
        OwnedInRange(ts, use, parent, i);
        var t := Walk(parent, i, false);
        var pte := ts[t.value][Px(0, i)];
        ghost var ts1, use1, pages1 := ts, use, pages;
        ok := AddPage(child, i, pages[pte.ppn], pte.perm);
        ParentKept(ts1, use1, pages1, ts, use, pages, parent, child, RoundUp(sz), i, if ok then i + 1 else i);
        GainedMore(ts0, use0, pages0, ts1, use1, pages1, ts, use, pages, child, 0, i, if ok then i + 1 else i);
        if !ok {
          OwnedMapped(ts, use, child, 0, i);
          ghost var ts2, use2, pages2 := ts, use, pages;
          UvmUnmap(child, 0, i, true);
          OwnsLess(ts2, use2, ts, use, child, 0, i);
          GainUndone(ts0, use0, pages0, ts2, use2, pages2, ts, use, pages, child, 0, i);
          return false;
        }
        MadeMore(ts0, ts1, ts, child, 0, i);
        forall w | 0 <= w <= i
          ensures Copied(ts, pages, parent, child, w)
        {
          CopiedKept(ts1, use1, pages1, ts, use, pages, parent, child, RoundUp(sz), i, w);
        }
        i := i + 1;
      }
      RoundUpReached(i, sz);
      ok := true;
    }

    /** uvmclear(): page v, which is mapped, becomes inaccessible to user code. */
    method UvmClear(root: nat, v: nat)
      requires Valid() && Back(ts, use) && IsRoot(use, root) && v < MAXVPN && Leaf(ts, root, v).v
      modifies this`ts
      ensures Valid() && Back(ts, use) && OnlyPages(old(ts), use, ts, root, v, v + 1)
      ensures Leaf(ts, root, v) == old(Leaf(ts, root, v)).(perm := old(Leaf(ts, root, v)).perm.(u := false))
    {
      hide Wf, FreeOk, Leaf, LowOf, Px, Back;
      ghost var ts0 := ts;
      LeafLow(ts, root, v);
      LowUse(ts, use, root, v);
      LeafPerm(ts, use, root, v);
      var l := LowOf(ts, root, v).value;
      var p := ts[l][Px(0, v)];
      var q := p.(perm := p.perm.(u := false));
      SetLeaf(ts, use, root, v, q);
      ts := ts[l := ts[l][Px(0, v) := q]];
      BackRemapped(ts0, ts, use, root, v);
    }

    /** One turn of walk()'s loop, from table f through entry k. */
    method Step(f: nat, k: nat, alloc: bool) returns (g: Option<nat>)
      requires Valid() && f < |use| && use[f].Table? && !use[f].slot.Low? && k < ENTRIES
      requires use[f].slot.Root? ==> k < ENTRIES / 2
      modifies this
      ensures Valid() && Grew(old(ts), old(use), old(pages), ts, use, pages, old(use[f]).root)
      ensures g.Some? ==>
                && g == Next(ts, f, k)
                && g.value < |use|
                && use[g.value] == Table(old(use[f]).root, Sub(old(use[f]).slot, k))
      ensures !alloc || old(Next(ts, f, k)).Some? ==>
                && g == old(Next(ts, f, k))
                && free == old(free) && ts == old(ts) && pages == old(pages) && use == old(use)
      ensures alloc && old(Next(ts, f, k)).None? ==>
              (g.None? <==> old(free) == []) && (g.Some? ==> free == old(free)[1..])
      ensures g.None? ==> free == old(free) && ts == old(ts)
      ensures g.Some? ==> OneTable(old(ts), old(use), ts, f, k, g.value)
    {
      hide NodeOk, Anchored, FreeOk, Grew, Added;
      NextUse(ts, use, f, k);
      GrewNot(ts, use, pages, use[f].root);
      if ts[f][k].v {
        return Some(ts[f][k].ppn);
      }
      if !alloc {
        return None;
      }
      FirstFree(free, use);
      ghost var ts0, use0, pages0 := ts, use, pages;
      g := Kalloc();
      if g.Some? {
        AddTable(ts, use, f, k, g.value);
        AddedNext(ts, use, f, k, g.value, f, k);
        GrewAdd(ts0, use0, pages0, use, pages, f, k, g.value);
        AddOneTable(ts, use0, use, f, k, g.value);
        InUse(free, use, g.value, AddedUse(use, f, k, g.value)[g.value]);
        use := AddedUse(use, f, k, g.value);
        ts := Link(ts, f, k, g.value);
      }
    }
  }

  /** memset the new table to zero and point entry k of table f to it. */
  function Link(ts: Tables, f: nat, k: nat, g: nat): (r: Tables)
    requires f < |ts| && g < |ts| && k < ENTRIES
    ensures r == Added(ts, f, k, g)
  {
    var cleared := ts[g := ZeroTable()];
    cleared[f := cleared[f][k := Pte(g, true, NO_PERM)]]
  }

  lemma FirstFree(free: seq<nat>, use: seq<Use>)
    requires FreeOk(free, use)
    ensures free != [] ==> free[0] < |use| && use[free[0]].Free?
  {
  }

  /** A frame in use may change from one use to another. */
  lemma InUse(free: seq<nat>, use: seq<Use>, f: nat, u: Use)
    requires FreeOk(free, use) && f < |use| && !use[f].Free? && !u.Free?
    ensures FreeOk(free, use[f := u])
  {
  }

  lemma GrewNext(ts0: Tables, use0: seq<Use>, pages0: seq<PageBytes>, ts1: Tables, use1: seq<Use>,
                 pages1: seq<PageBytes>, root: nat, f: nat, k: nat)
    requires Grew(ts0, use0, pages0, ts1, use1, pages1, root) && f < |use0| && use0[f].Table? && k < ENTRIES
    ensures |use1| == |use0| && use1[f] == use0[f] && (Next(ts0, f, k).Some? ==> Next(ts1, f, k) == Next(ts0, f, k))
  {
  }

  lemma NoPages(ts: Tables, root: nat, lo: nat)
    ensures TablesFor(ts, root, lo, lo) == 0
  {
  }

  lemma OnlyNone(ts: Tables, use: seq<Use>, root: nat, lo: nat)
    ensures OnlyPages(ts, use, ts, root, lo, lo)
  {
  }

  lemma OnlyMore(ts0: Tables, use0: seq<Use>, pages0: seq<PageBytes>, ts1: Tables, use1: seq<Use>,
                 pages1: seq<PageBytes>, ts2: Tables, use2: seq<Use>, pages2: seq<PageBytes>, root: nat, lo: nat, a:
                 nat, mapped: bool)
    requires NewTables(use0, pages0, use1, pages1, root) && NewTables(use1, pages1, use2, pages2, root)
    requires OnlyPages(ts0, use0, ts1, root, lo, a) && OnlyPages(ts1, use1, ts2, root, a, a + 1) && lo <= a < MAXVPN
    requires IsRoot(use1, root) && (!mapped ==> Leaf(ts2, root, a) == Leaf(ts1, root, a))
    ensures OnlyPages(ts0, use0, ts2, root, lo, if mapped then a + 1 else a)
    ensures NewTables(use0, pages0, use2, pages2, root)
    ensures forall w :: 0 <= w < MAXVPN && w != a ==> Leaf(ts2, root, w) == Leaf(ts1, root, w)
  {
    hide Leaf;
  }

  lemma GrewTables(ts0: Tables, use0: seq<Use>, pages0: seq<PageBytes>, ts1: Tables, use1: seq<Use>,
                   pages1: seq<PageBytes>, root: nat)
    requires Grew(ts0, use0, pages0, ts1, use1, pages1, root)
    ensures |use1| == |use0| && forall f :: 0 <= f < |use0| && use0[f].Table? ==> use1[f] == use0[f]
  {
  }

  lemma GrewAdd(ts: Tables, use0: seq<Use>, pages0: seq<PageBytes>, use: seq<Use>, pages: seq<PageBytes>,
                f: nat, k: nat, g: nat)
    requires CanAdd(ts, use, f, k, g) && |use0| == |use| && |pages0| == |pages| == |ts|
    requires use0[g].Free? && use == use0[g := Kernel] && pages == pages0[g := Filled(5)]
    ensures Grew(ts, use0, pages0, Added(ts, f, k, g), AddedUse(use, f, k, g), pages, use[f].root)
  {
    hide Leaf, Added, NodeOk, Anchored;
    AddTable(ts, use, f, k, g);
    forall h, y | 0 <= h < |use0| && use0[h].Table? && 0 <= y < ENTRIES && Next(ts, h, y).Some?
      ensures Next(Added(ts, f, k, g), h, y) == Next(ts, h, y)
    {
      AddedNext(ts, use, f, k, g, h, y);
    }
    forall q, w | IsRoot(use0, q)
      ensures Leaf(Added(ts, f, k, g), q, w) == Leaf(ts, q, w)
    {
      assert IsRoot(use, q);
    }
  }

  lemma AddOneTable(ts: Tables, use0: seq<Use>, use: seq<Use>, f: nat, k: nat, g: nat)
    requires CanAdd(ts, use, f, k, g) && |use0| == |use| && use == use0[g := Kernel] && use0[g].Free?
    ensures OneTable(ts, use0, Added(ts, f, k, g), f, k, g)
  {
  }

  /** PGROUNDUP(sz) / PGSIZE */
  function RoundUp(sz: nat): nat { (sz + PGSIZE - 1) / PGSIZE }

  function Height(s: Slot): nat
  {
    match s case Root => 2 case Mid(_) => 1 case Low(_, _) => 0
  }

  lemma BackTorn(ts: Tables, use: seq<Use>, ts': Tables, r: nat)
    requires Back(ts, use) && forall w :: 0 <= w < MAXVPN ==> Leaf(ts, r, w) == ZERO
    requires forall q, w :: q != r && IsRoot(use, q) ==> Leaf(ts', q, w) == Leaf(ts, q, w)
    ensures Back(ts', Torn(use, r, Root))
  {
  }

  lemma OwnedMapped(ts: Tables, use: seq<Use>, root: nat, lo: nat, hi: nat)
    requires forall w :: lo <= w < hi ==> OwnPage(ts, use, root, w)
    ensures forall w :: lo <= w < hi ==> Leaf(ts, root, w).v
  {
    hide Leaf;
    forall w | lo <= w < hi
      ensures Leaf(ts, root, w).v
    {
      assert OwnPage(ts, use, root, w);
    }
  }

  lemma RoundUpMonotone(a: nat, b: nat)
    requires a <= b
    ensures RoundUp(a) <= RoundUp(b)
  {
  }

  lemma NewRoot(ts: Tables, use: seq<Use>, f: nat)
    requires Wf(ts, use) && f < |use| && use[f] == Kernel
    ensures Wf(ts[f := ZeroTable()], use[f := Table(f, Root)])
    ensures var ts' := ts[f := ZeroTable()]; forall w :: 0 <= w < MAXVPN ==> Leaf(ts', f, w) == ZERO
    ensures forall q, w :: IsRoot(use, q) ==> Leaf(ts[f := ZeroTable()], q, w) == Leaf(ts, q, w)
  {
    var ts', use' := ts[f := ZeroTable()], use[f := Table(f, Root)];
    forall h | 0 <= h < |use'| && use'[h].Table?
      ensures NodeOk(ts', use', h) && Anchored(ts', use', h)
    {
      if h != f {
        NewRootNode(ts, use, f, h);
      }
    }
    forall q, w | IsRoot(use, q)
      ensures Leaf(ts', q, w) == Leaf(ts, q, w)
    {
      NewRootLeaf(ts, use, f, q, w);
    }
  }

  lemma ZeroRoot(ts: Tables, r: nat)
    requires r < |ts| && ts[r] == ZeroTable()
    ensures forall w :: 0 <= w < MAXVPN ==> !MidAt(ts, r, w)
  {
  }

  lemma NewRootNode(ts: Tables, use: seq<Use>, f: nat, h: nat)
    requires Wf(ts, use) && f < |use| && use[f] == Kernel && h < |use| && use[h].Table?
    ensures NodeOk(ts[f := ZeroTable()], use[f := Table(f, Root)], h)
    ensures Anchored(ts[f := ZeroTable()], use[f := Table(f, Root)], h)
  {
  }

  lemma NewRootLeaf(ts: Tables, use: seq<Use>, f: nat, q: nat, w: nat)
    requires Wf(ts, use) && f < |use| && use[f] == Kernel && IsRoot(use, q)
    ensures Leaf(ts[f := ZeroTable()], q, w) == Leaf(ts, q, w)
  {
  }

  /** User memory that stays mapped and owned keeps its way back. */
  lemma BackKept(ts0: Tables, use0: seq<Use>, ts1: Tables, use1: seq<Use>)
    requires Back(ts0, use0) && |use1| == |use0|
    requires forall f :: 0 <= f < |use1| && use1[f].Page? ==> use1[f] == use0[f]
    requires forall q :: IsRoot(use0, q) ==> IsRoot(use1, q)
    requires forall q, w :: IsRoot(use0, q) && 0 <= w < USERTOP ==> Leaf(ts1, q, w) == Leaf(ts0, q, w)
    ensures Back(ts1, use1)
  {
  }

  lemma OwnsLess(ts0: Tables, use0: seq<Use>, ts1: Tables, use1: seq<Use>, root: nat, lo: nat, hi: nat)
    requires Owns(ts0, use0, root, hi) && lo <= hi && IsRoot(use0, root)
    requires use1 == Released(use0, root, lo, hi) && OnlyPages(ts0, use0, ts1, root, lo, hi)
    requires forall w :: lo <= w < hi ==> Leaf(ts1, root, w) == ZERO
    ensures Owns(ts1, use1, root, lo)
  {
    hide Leaf;
    forall w | 0 <= w < lo
      ensures OwnPage(ts1, use1, root, w)
    {
      assert OwnPage(ts0, use0, root, w);
    }
  }

  lemma LeafLow(ts: Tables, r: nat, v: nat)
    requires Leaf(ts, r, v).v
    ensures LowOf(ts, r, v).Some? && LowOf(ts, r, v).value < |ts|
    ensures Leaf(ts, r, v) == ts[LowOf(ts, r, v).value][Px(0, v)]
  {
  }

  lemma BackUnmapped(ts0: Tables, use0: seq<Use>, ts1: Tables, use1: seq<Use>, root: nat, a: nat, doFree: bool)
    requires Back(ts0, use0) && IsRoot(use0, root) && a < MAXVPN && Leaf(ts0, root, a).v
    requires if doFree then OwnPage(ts0, use0, root, a) else a >= USERTOP
    requires use1 == if doFree then use0[Leaf(ts0, root, a).ppn := Free] else use0
    requires OnlyPages(ts0, use0, ts1, root, a, a + 1)
    ensures Back(ts1, use1)
  {
    hide Leaf;
    forall f | 0 <= f < |use1| && use1[f].Page?
      ensures MappedAt(ts1, use1, f)
    {
      assert MappedAt(ts0, use0, f);
    }
  }

  /** Frames that are no tables may change their use without affecting the trees. */
  lemma KernelUse(ts: Tables, use: seq<Use>, f: nat, u: Use)
    requires Wf(ts, use) && f < |use| && !use[f].Table? && !u.Table?
    ensures Wf(ts, use[f := u])
  {
  }
}
