/** Why freewalk() of kernel/vm.c frees a whole page-table tree and nothing else. */
module TearDown {
  import opened Sv39
  import opened PageTable

  /** Place t is s or lies below it. */
  predicate Below(s: Slot, t: Slot)
  {
    match s
    case Root => true
    case Mid(i) => t == Mid(i) || (t.Low? && t.i == i)
    case Low(_, _) => t == s
  }

  /** The entry of the table at s through which the path to t, strictly below, goes. */
  function Branch(s: Slot, t: Slot): nat
  {
    match s
    case Root => (match t case Root => 0 case Mid(i) => i case Low(i, _) => i)
    case Mid(_) => if t.Low? then t.j else 0
    case Low(_, _) => 0
  }

  predicate InTree(u: Use, r: nat, s: Slot) { u.Table? && u.root == r && Below(s, u.slot) }

  /** The subtree below (r, s) is well formed, maps no memory, and all its tables hang together. */
  predicate Bare(ts: Tables, use: seq<Use>, r: nat, s: Slot)
  {
    && |ts| == |use|
    && (forall g, k :: 0 <= g < |use| && InTree(use[g], r, s) && 0 <= k < ENTRIES ==>
          EntryOk(use, r, use[g].slot, k, ts[g][k]) && (use[g].slot.Low? ==> !ts[g][k].v))
    && (forall g :: 0 <= g < |use| && InTree(use[g], r, s) && use[g].slot != s ==>
          Branch(s, use[g].slot) < ENTRIES && Hangs(ts, use, g))
  }

  /** Table g is pointed to by the table above it. */
  predicate Hangs(ts: Tables, use: seq<Use>, g: nat)
    requires g < |use| && use[g].Table?
  {
    match use[g].slot
    case Root => true
    case Mid(i) => exists h :: 0 <= h < |use| && use[h] == Table(use[g].root, Root) && PointsTo(ts, h, i, g)
    case Low(i, j) => exists h :: 0 <= h < |use| && use[h] == Table(use[g].root, Mid(i)) && PointsTo(ts, h, j, g)
  }

  predicate PointsTo(ts: Tables, h: nat, k: nat, g: nat)
  {
    h < |ts| && k < ENTRIES && ts[h][k].v && ts[h][k].ppn == g
  }

  /** The uses after the tables below (r, s) through branches less than n have been freed. */
  function Pruned(use: seq<Use>, r: nat, s: Slot, n: nat): (w: seq<Use>)
    ensures |w| == |use|
    ensures forall g :: 0 <= g < |use| ==>
              w[g] == if InTree(use[g], r, s) && use[g].slot != s && Branch(s, use[g].slot) < n then Free else use[g]
  {
    seq(|use|, g requires 0 <= g < |use| =>
      if InTree(use[g], r, s) && use[g].slot != s && Branch(s, use[g].slot) < n then Free else use[g])
  }

  /** The uses after the whole subtree has been freed. */
  function Torn(use: seq<Use>, r: nat, s: Slot): (w: seq<Use>)
    ensures |w| == |use|
    ensures forall g :: 0 <= g < |use| ==> w[g] == if InTree(use[g], r, s) then Free else use[g]
  {
    seq(|use|, g requires 0 <= g < |use| => if InTree(use[g], r, s) then Free else use[g])
  }

  /** Tables outside the subtree are as they were. */
  predicate Untouched(ts0: Tables, use0: seq<Use>, ts: Tables, r: nat, s: Slot)
    requires |use0| == |ts0|
  {
    |ts| == |ts0| && forall g :: 0 <= g < |use0| && !InTree(use0[g], r, s) ==> ts[g] == ts0[g]
  }

  /** Freewalk at table f, place (r, s), has dealt with the entries before n. */
  predicate AtEntry(ts0: Tables, use0: seq<Use>, ts: Tables, use: seq<Use>, f: nat, r: nat, s: Slot, n: nat)
  {
    && |ts| == |ts0| == |use0| == |use| && f < |use0| && use0[f] == Table(r, s) && n <= ENTRIES
    && use == Pruned(use0, r, s, n)
    && (forall g :: 0 <= g < |use0| && g != f && use[g] == use0[g] ==> ts[g] == ts0[g])
    && (forall k :: 0 <= k < ENTRIES ==> ts[f][k] == if k < n then ZERO else ts0[f][k])
  }

  lemma AtStart(ts: Tables, use: seq<Use>, f: nat, r: nat, s: Slot)
    requires |ts| == |use| && f < |use| && use[f] == Table(r, s)
    ensures AtEntry(ts, use, ts, use, f, r, s, 0)
  {
  }

  /** An entry that points nowhere has no tables below it. */
  lemma NoBranch(ts0: Tables, use0: seq<Use>, ts: Tables, use: seq<Use>, f: nat, r: nat, s: Slot, n: nat)
    requires Bare(ts0, use0, r, s) && AtEntry(ts0, use0, ts, use, f, r, s, n) && n < ENTRIES && !ts0[f][n].v
    requires Sole(use0, f, r, s)
    ensures AtEntry(ts0, use0, ts, use, f, r, s, n + 1)
  {
    forall g | 0 <= g < |use0| && InTree(use0[g], r, s) && use0[g].slot != s
      ensures Branch(s, use0[g].slot) != n
    {
      TopOf(ts0, use0, f, r, s, g);
    }
    assert use == Pruned(use0, r, s, n + 1);
    assert ts0[f][n] == ZERO by {
      assert InTree(use0[f], r, s);
      assert EntryOk(use0, r, s, n, ts0[f][n]);
    }
  }

  /** The way down from f to any table below it starts at the entry its branch says. */
  lemma TopOf(ts: Tables, use: seq<Use>, f: nat, r: nat, s: Slot, g: nat)
    requires Bare(ts, use, r, s) && Sole(use, f, r, s) && g < |use|
    requires InTree(use[g], r, s) && use[g].slot != s
    ensures Branch(s, use[g].slot) < ENTRIES && ts[f][Branch(s, use[g].slot)].v
  {
  }

  /** Only f is at place (r, s). */
  predicate Sole(use: seq<Use>, f: nat, r: nat, s: Slot)
  {
    f < |use| && use[f] == Table(r, s) && forall h :: 0 <= h < |use| && use[h] == Table(r, s) ==> h == f
  }

  /** When freewalk() meets a pointer, the tree below it is still whole, and bare. */
  lemma ChildBare(ts0: Tables, use0: seq<Use>, ts: Tables, use: seq<Use>, f: nat, r: nat, s: Slot, n: nat)
    requires Bare(ts0, use0, r, s) && Sole(use0, f, r, s) && AtEntry(ts0, use0, ts, use, f, r, s, n)
    requires n < ENTRIES && ts0[f][n].v
    ensures !s.Low? && !ts0[f][n].perm.Leaf() && Sole(use, ts0[f][n].ppn, r, Sub(s, n))
    ensures Bare(ts, use, r, Sub(s, n))
  {
    var c := ts0[f][n].ppn;
    assert InTree(use0[f], r, s);
    assert EntryOk(use0, r, s, n, ts0[f][n]);
    SubtreeKept(ts0, use0, ts, use, f, r, s, n);
    forall h | 0 <= h < |use| && use[h] == Table(r, Sub(s, n))
      ensures h == c
    {
      assert InTree(use0[h], r, s) && use0[h].slot != s;
      assert Hangs(ts0, use0, h);
    }
    forall g | 0 <= g < |use| && InTree(use[g], r, Sub(s, n)) && use[g].slot != Sub(s, n)
      ensures Branch(Sub(s, n), use[g].slot) < ENTRIES && Hangs(ts, use, g)
    {
      HangsKept(ts0, use0, ts, use, f, r, s, n, g);
    }
  }

  lemma SubtreeKept(ts0: Tables, use0: seq<Use>, ts: Tables, use: seq<Use>, f: nat, r: nat, s: Slot, n: nat)
    requires Bare(ts0, use0, r, s) && AtEntry(ts0, use0, ts, use, f, r, s, n) && !s.Low? && n < ENTRIES
    ensures forall g :: 0 <= g < |use0| && InTree(use0[g], r, Sub(s, n)) ==>
              g != f && use[g] == use0[g] && ts[g] == ts0[g] && InTree(use0[g], r, s) && use0[g].slot != s
    ensures forall g :: 0 <= g < |use0| && InTree(use[g], r, Sub(s, n)) ==> use[g] == use0[g]
    ensures forall g, k :: 0 <= g < |use| && InTree(use[g], r, Sub(s, n)) && 0 <= k < ENTRIES ==>
              EntryOk(use, r, use[g].slot, k, ts[g][k]) && (use[g].slot.Low? ==> !ts[g][k].v)
  {
  }

  lemma HangsKept(ts0: Tables, use0: seq<Use>, ts: Tables, use: seq<Use>, f: nat, r: nat, s: Slot, n: nat, g: nat)
    requires Bare(ts0, use0, r, s) && AtEntry(ts0, use0, ts, use, f, r, s, n) && !s.Low? && n < ENTRIES
    requires g < |use| && InTree(use[g], r, Sub(s, n)) && use[g].slot != Sub(s, n)
    ensures Branch(Sub(s, n), use[g].slot) < ENTRIES && Hangs(ts, use, g)
  {
  }

  /** Freeing the subtree below entry n, and clearing the entry, is one entry's progress. */
  lemma ChildFreed(ts0: Tables, use0: seq<Use>, ts: Tables, use: seq<Use>, ts1: Tables, use1: seq<Use>,
                   f: nat, r: nat, s: Slot, n: nat)
    requires AtEntry(ts0, use0, ts, use, f, r, s, n) && !s.Low? && n < ENTRIES
    requires use1 == Torn(use, r, Sub(s, n)) && Untouched(ts, use, ts1, r, Sub(s, n))
    ensures AtEntry(ts0, use0, SetEntry(ts1, f, n, ZERO), use1, f, r, s, n + 1)
  {
  }

  lemma AllFreed(ts0: Tables, use0: seq<Use>, ts: Tables, use: seq<Use>, f: nat, r: nat, s: Slot)
    requires Bare(ts0, use0, r, s) && Sole(use0, f, r, s) && AtEntry(ts0, use0, ts, use, f, r, s, ENTRIES)
    ensures use[f] == Table(r, s)
    ensures use[f := Free] == Torn(use0, r, s) && Untouched(ts0, use0, ts, r, s)
  {
  }

  // ---- whole address spaces ----

  /** A well-formed tree whose flat map is empty is bare. */
  lemma EmptyIsBare(ts: Tables, use: seq<Use>, r: nat)
    requires Wf(ts, use) && IsRoot(use, r) && forall w :: 0 <= w < MAXVPN ==> Leaf(ts, r, w) == ZERO
    ensures Bare(ts, use, r, Root) && Sole(use, r, r, Root)
  {
    hide Leaf;
    forall g | 0 <= g < |use| && InTree(use[g], r, Root)
      ensures NodeOk(ts, use, g) && Anchored(ts, use, g)
      ensures use[g].slot.Low? ==> forall k :: 0 <= k < ENTRIES ==> !ts[g][k].v
      ensures use[g].slot != Root ==> Branch(Root, use[g].slot) < ENTRIES && Hangs(ts, use, g)
    {
      AnchoredHangs(ts, use, g);
      if use[g].slot.Low? {
        forall k | 0 <= k < ENTRIES
          ensures !ts[g][k].v
        {
          LowIsLeaf(ts, use, g, k);
        }
      }
    }
  }

  lemma AnchoredHangs(ts: Tables, use: seq<Use>, g: nat)
    requires Wf(ts, use) && g < |use| && use[g].Table?
    ensures use[g].slot != Root ==> Branch(Root, use[g].slot) < ENTRIES && Hangs(ts, use, g)
  {
  }

  /** Every entry of a lowest-level table is the entry of some page. */
  lemma LowIsLeaf(ts: Tables, use: seq<Use>, g: nat, k: nat)
    requires Wf(ts, use) && g < |use| && use[g].Table? && use[g].slot.Low? && k < ENTRIES
    ensures exists w :: 0 <= w < MAXVPN && Leaf(ts, use[g].root, w) == ts[g][k]
  {
    assert NodeOk(ts, use, g) && Anchored(ts, use, g);
    var r, i, j := use[g].root, use[g].slot.i, use[g].slot.j;
    assert EntryOk(use, r, Root, i, ts[r][i]) by {
      assert NodeOk(ts, use, r);
    }
    PageOfPx(i, j, k);
    hide Px, PageOf;
    assert Leaf(ts, r, PageOf(i, j, k)) == ts[g][k];
  }

  /** Tearing down one address space leaves the others whole. */
  lemma TornWf(ts: Tables, use: seq<Use>, ts': Tables, r: nat)
    requires Wf(ts, use) && IsRoot(use, r) && Untouched(ts, use, ts', r, Root)
    ensures Wf(ts', Torn(use, r, Root))
    ensures forall q, w :: q != r && IsRoot(use, q) ==> Leaf(ts', q, w) == Leaf(ts, q, w)
  {
    var use' := Torn(use, r, Root);
    forall g | 0 <= g < |use'| && use'[g].Table?
      ensures NodeOk(ts', use', g) && Anchored(ts', use', g)
    {
      TornNode(ts, use, ts', r, g);
    }
    forall q, w | q != r && IsRoot(use, q)
      ensures Leaf(ts', q, w) == Leaf(ts, q, w)
    {
      TornLeaf(ts, use, ts', r, q, w);
    }
  }

  lemma TornNode(ts: Tables, use: seq<Use>, ts': Tables, r: nat, g: nat)
    requires Wf(ts, use) && Untouched(ts, use, ts', r, Root) && g < |use| && use[g].Table? && use[g].root != r
    ensures NodeOk(ts', Torn(use, r, Root), g) && Anchored(ts', Torn(use, r, Root), g)
  {
  }

  lemma TornLeaf(ts: Tables, use: seq<Use>, ts': Tables, r: nat, q: nat, w: nat)
    requires Wf(ts, use) && Untouched(ts, use, ts', r, Root) && q != r && IsRoot(use, q)
    ensures Leaf(ts', q, w) == Leaf(ts, q, w)
  {
  }
}
