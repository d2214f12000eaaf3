/** How many frames the page tables of kernel/vm.c take: which tables exist, which are missing for a range
    of pages, and the size of a tree that was built from nothing. */
module FrameCount {
  import opened Common
  import opened Sv39
  import opened PageTable

  /** Which middle and which lowest-level table page v needs. */
  function MidNo(v: nat): nat { v / ENTRIES / ENTRIES }
  function LowNo(v: nat): nat { v / ENTRIES }

  predicate MidAt(ts: Tables, r: nat, v: nat) { Next(ts, r, Px(2, v)).Some? }
  predicate LowAt(ts: Tables, r: nat, v: nat) { LowOf(ts, r, v).Some? }

  /** How many tables walk() has to make for page v. */
  function Missing(ts: Tables, r: nat, v: nat): nat
  {
    (if MidAt(ts, r, v) then 0 else 1) + (if LowAt(ts, r, v) then 0 else 1)
  }

  /** The tables that are new in root's tree are those for pages [lo, hi). */
  ghost predicate Made(ts0: Tables, ts1: Tables, r: nat, lo: nat, hi: nat)
  {
    forall w :: 0 <= w < MAXVPN ==>
      && (MidAt(ts1, r, w) <==> MidAt(ts0, r, w) || (lo < hi && MidNo(lo) <= MidNo(w) <= MidNo(hi - 1)))
      && (LowAt(ts1, r, w) <==> LowAt(ts0, r, w) || (lo < hi && LowNo(lo) <= LowNo(w) <= LowNo(hi - 1)))
  }

  /** How many tables are made for pages [lo, hi), one page after the other. A page shares its tables with
      the page before it, unless it begins a new one. */
  function TablesFor(ts: Tables, r: nat, lo: nat, hi: nat): nat
  {
    if hi <= lo then 0
    else
      var v := hi - 1;
      TablesFor(ts, r, lo, v)
      + (if MidAt(ts, r, v) || (lo < v && MidNo(v - 1) == MidNo(v)) then 0 else 1)
      + (if LowAt(ts, r, v) || (lo < v && LowNo(v - 1) == LowNo(v)) then 0 else 1)
  }

  /** How many frames memory for pages [lo, hi) takes: one for each page, and the missing tables. */
  function FramesFor(ts: Tables, r: nat, lo: nat, hi: nat): nat
  {
    (if lo < hi then hi - lo else 0) + TablesFor(ts, r, lo, hi)
  }

  lemma PxNo(v: nat, w: nat)
    requires v < MAXVPN && w < MAXVPN
    ensures Px(2, v) == Px(2, w) <==> MidNo(v) == MidNo(w)
    ensures Px(2, v) == Px(2, w) && Px(1, v) == Px(1, w) <==> LowNo(v) == LowNo(w)
  {
  }

  lemma NoMonotone(v: nat, w: nat)
    requires v <= w
    ensures MidNo(v) <= MidNo(w) && LowNo(v) <= LowNo(w)
  {
  }

  lemma NoStep(v: nat)
    ensures MidNo(v) <= MidNo(v + 1) <= MidNo(v) + 1 && LowNo(v) <= LowNo(v + 1) <= LowNo(v) + 1
  {
  }

  /** Entry k of table f now leads to g, and all else leads where it did. */
  ghost predicate OneTable(ts0: Tables, use0: seq<Use>, ts1: Tables, f: nat, k: nat, g: nat)
  {
    && (forall h, y :: 0 <= h < |use0| && use0[h].Table? && 0 <= y < ENTRIES ==>
          Next(ts1, h, y) == if h == f && y == k then Some(g) else Next(ts0, h, y))
    && (k < ENTRIES && Next(ts0, f, k).Some? ==> Next(ts0, f, k) == Some(g))
    && (k < ENTRIES && Next(ts0, f, k).None? ==> forall y :: 0 <= y < ENTRIES ==> Next(ts1, g, y) == None)
  }

  /** walk() with alloc makes the tables of its page and no others. */
  lemma WalkMade(ts0: Tables, use0: seq<Use>, ts1: Tables, use1: seq<Use>, ts2: Tables, r: nat, v: nat, m: nat, l: nat)
    requires Wf(ts0, use0) && Wf(ts1, use1) && IsRoot(use0, r) && IsRoot(use1, r) && v < MAXVPN && |use1| == |use0|
    requires forall f :: 0 <= f < |use0| && use0[f].Table? ==> use1[f] == use0[f]
    requires OneTable(ts0, use0, ts1, r, Px(2, v), m) && OneTable(ts1, use1, ts2, m, Px(1, v), l)
    requires m < |use1| && use1[m] == Table(r, Mid(Px(2, v)))
    ensures Made(ts0, ts2, r, v, v + 1)
  {
    hide Px, NodeOk, Anchored, MidNo, LowNo;
    forall w | 0 <= w < MAXVPN
      ensures MidAt(ts2, r, w) <==> MidAt(ts0, r, w) || MidNo(v) == MidNo(w)
      ensures LowAt(ts2, r, w) <==> LowAt(ts0, r, w) || LowNo(v) == LowNo(w)
    {
      PxNo(v, w);
      NextUse(ts0, use0, r, Px(2, w));
      NextUse(ts1, use1, r, Px(2, w));
    }
  }

  lemma MissingThere(ts0: Tables, use0: seq<Use>, ts1: Tables, r: nat, v: nat, m: nat)
    requires Wf(ts0, use0) && IsRoot(use0, r) && OneTable(ts0, use0, ts1, r, Px(2, v), m)
    requires Next(ts1, r, Px(2, v)) == Some(m)
    ensures Missing(ts0, r, v) == (if MidAt(ts0, r, v) then 0 else 1) + if Next(ts1, m, Px(1, v)).Some? then 0 else 1
  {
  }

  /** One more page: its missing tables are those it does not share with the pages before it. */
  lemma OnePageMore(ts0: Tables, ts1: Tables, r: nat, lo: nat, a: nat)
    requires Made(ts0, ts1, r, lo, a) && lo <= a < MAXVPN
    ensures TablesFor(ts0, r, lo, a + 1) == TablesFor(ts0, r, lo, a) + Missing(ts1, r, a)
  {
  }

  lemma OneFrameMore(ts0: Tables, ts1: Tables, r: nat, lo: nat, a: nat, hi: nat)
    requires Made(ts0, ts1, r, lo, a) && lo <= a < MAXVPN && a < hi
    ensures FramesFor(ts0, r, lo, a + 1) == FramesFor(ts0, r, lo, a) + 1 + Missing(ts1, r, a)
    ensures FramesFor(ts0, r, lo, a + 1) <= FramesFor(ts0, r, lo, hi)
  {
    hide Made, Missing;
    OnePageMore(ts0, ts1, r, lo, a);
    NeedsMore(ts0, r, lo, a + 1, hi);
  }

  lemma NoFrames(ts: Tables, r: nat, lo: nat, hi: nat)
    requires hi <= lo
    ensures FramesFor(ts, r, lo, hi) == 0 && Made(ts, ts, r, lo, hi)
  {
  }

  lemma OnePageOnly(ts: Tables, r: nat, a: nat)
    ensures TablesFor(ts, r, a, a + 1) == Missing(ts, r, a)
  {
  }

  lemma MadeMore(ts0: Tables, ts1: Tables, ts2: Tables, r: nat, lo: nat, a: nat)
    requires Made(ts0, ts1, r, lo, a) && Made(ts1, ts2, r, a, a + 1) && lo <= a
    ensures Made(ts0, ts2, r, lo, a + 1)
  {
  }

  lemma {:induction false} NeedsMore(ts: Tables, r: nat, lo: nat, a: nat, hi: nat)
    requires a <= hi
    ensures TablesFor(ts, r, lo, a) <= TablesFor(ts, r, lo, hi)
  {
    if a < hi {
      NeedsMore(ts, r, lo, a, hi - 1);
    }
  }

  /** Storing a leaf entry adds no table and removes none. */
  lemma LeafMade(ts: Tables, use: seq<Use>, r: nat, v: nat, k: nat, p: Pte)
    requires Wf(ts, use) && IsRoot(use, r) && LowOf(ts, r, v).Some? && LowOf(ts, r, v).value < |ts| && k < ENTRIES
    ensures Made(ts, SetEntry(ts, LowOf(ts, r, v).value, k, p), r, 0, 0)
  {
  }

  lemma MadeThen(ts0: Tables, ts1: Tables, ts2: Tables, r: nat, lo: nat, hi: nat)
    requires Made(ts0, ts1, r, lo, hi) && Made(ts1, ts2, r, 0, 0)
    ensures Made(ts0, ts2, r, lo, hi)
  {
  }

  // ---- a tree built from nothing ----

  /** Root's tree has the tables for user pages [0, n) and for the highest pages, and no others. */
  ghost predicate TreeFor(ts: Tables, r: nat, n: nat)
  {
    forall w :: 0 <= w < MAXVPN ==>
      && (MidAt(ts, r, w) <==> MidNo(w) == MidNo(MAXVPN - 1) || (0 < n && MidNo(w) <= MidNo(n - 1)))
      && (LowAt(ts, r, w) <==> LowNo(w) == LowNo(MAXVPN - 1) || (0 < n && LowNo(w) <= LowNo(n - 1)))
  }

  /** The number of tables below the root for user pages [0, n): one for each 512 pages, and above them one
      for each 512 tables. */
  function TreeSize(n: nat): nat { Groups(n) + Groups(Groups(n)) }

  /** n in groups of 512, rounded up. */
  function Groups(n: nat): nat { (n + ENTRIES - 1) / ENTRIES }

  lemma TreeSizeStep(v: nat)
    ensures TreeSize(v + 1) == TreeSize(v) + (if v > 0 && MidNo(v - 1) == MidNo(v) then 0 else 1)
                                           + (if v > 0 && LowNo(v - 1) == LowNo(v) then 0 else 1)
  {
  }

  /** User pages far below the highest ones, as all user memory that fits into RAM is. */
  const LOWPAGES := 255 * ENTRIES * ENTRIES

  lemma LowPages(v: nat)
    requires v < LOWPAGES
    ensures MidNo(v) < MidNo(MAXVPN - 1) && LowNo(v) < LowNo(MAXVPN - 1)
  {
  }

  /** Growing such a tree from n to m pages takes the difference in size. */
  lemma {:induction false} TreeGrowth(ts: Tables, r: nat, n: nat, m: nat)
    requires TreeFor(ts, r, n) && n <= m <= LOWPAGES
    ensures TablesFor(ts, r, n, m) == TreeSize(m) - TreeSize(n)
  {
    hide MidAt, LowAt, MidNo, LowNo, TreeSize;
    if n < m {
      var v := m - 1;
      TreeGrowth(ts, r, n, v);
      TreeSizeStep(v);
      LowPages(v);
      if n < v {
        NoStep(v - 1);
        NoMonotone(n, v);
        if n > 0 {
          NoMonotone(n - 1, v - 1);
        }
      } else if n > 0 {
        NoStep(v - 1);
      }
    }
  }

  /** How many frames user memory of n pages takes in a tree that was built from nothing. */
  function UserFrames(n: nat): nat { n + TreeSize(n) }

  lemma TreeFrames(ts: Tables, r: nat, n: nat, m: nat)
    requires TreeFor(ts, r, n) && n <= m <= LOWPAGES
    ensures FramesFor(ts, r, n, m) == UserFrames(m) - UserFrames(n)
  {
    TreeGrowth(ts, r, n, m);
  }

  lemma UserFramesMonotone(n: nat, m: nat)
    requires n <= m
    ensures UserFrames(n) <= UserFrames(m) && m <= UserFrames(m) <= 3 * m
  {
  }

  /** With few frames in all, growing a tree from n to m pages succeeds by the closed form, however large m is. */
  lemma TreeFits(ts: Tables, r: nat, n: nat, m: nat, free: nat)
    requires TreeFor(ts, r, n) && n <= m && n <= 32768 && free <= 32768
    ensures free >= FramesFor(ts, r, n, m) <==> free + UserFrames(n) >= UserFrames(m)
    ensures m <= LOWPAGES ==> FramesFor(ts, r, n, m) == UserFrames(m) - UserFrames(n)
    ensures m > LOWPAGES ==> free < FramesFor(ts, r, n, m)
  {
    hide TreeFor, UserFrames, TablesFor;
    UserFramesMonotone(n, m);
    UserFramesMonotone(n, n);
    if m <= LOWPAGES {
      TreeFrames(ts, r, n, m);
    }
  }

}
