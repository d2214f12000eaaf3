/** Three-level page tables in physical memory (kernel/vm.c), and the flat map from page
    numbers to entries that they stand for. A frame number stands for a physical page. */
module PageTable {
  import opened Common
  import opened Sv39

  /** A table's place in its tree: the root, the table for one root entry, or for two indices. */
  datatype Slot = Root | Mid(i: nat) | Low(i: nat, j: nat)

  /** What a frame is used for. Each frame has one use, so no two owners share one. */
  datatype Use =
    | Free
    | Table(root: nat, slot: Slot)
    | Page(root: nat, vpn: nat)
    | ProcPage(p: nat, kind: Kind)
    | Kernel

  /** The two pages the kernel keeps for a process. */
  datatype Kind = Trapframe | Usyscall

  type Tables = seq<Sv39.Table>

  function Sub(s: Slot, k: nat): Slot
  {
    match s
    case Root => Mid(k)
    case Mid(i) => Low(i, k)
    case Low(_, _) => s
  }

  predicate IsRoot(use: seq<Use>, r: nat) { r < |use| && use[r] == Table(r, Root) }

  /** Entry k of a table at place s: all zero or valid, and zero in the unused upper half of a root;
      a valid one in the lowest level maps memory,
      elsewhere it points to the table at the place below. */
  predicate EntryOk(use: seq<Use>, r: nat, s: Slot, k: nat, p: Pte)
  {
    && (p == ZERO || p.v) && (p.v && s.Root? ==> k < ENTRIES / 2)
    && (p.v ==> if s.Low? then p.perm.Leaf()
                else !p.perm.Leaf() && p.ppn < |use| && use[p.ppn] == Table(r, Sub(s, k)))
  }

  predicate NodeOk(ts: Tables, use: seq<Use>, f: nat)
    requires f < |ts| && f < |use| && use[f].Table?
  {
    && IsRoot(use, use[f].root) && (use[f].slot.Root? ==> f == use[f].root)
    && forall k :: 0 <= k < ENTRIES ==> EntryOk(use, use[f].root, use[f].slot, k, ts[f][k])
  }

  /** The table that entry k of table f points to. */
  function Next(ts: Tables, f: nat, k: nat): Option<nat>
    requires k < ENTRIES
  {
    if f < |ts| && ts[f][k].v && ts[f][k].ppn < |ts| then Some(ts[f][k].ppn) else None
  }

  /** The path from the root to table f exists. */
  predicate Anchored(ts: Tables, use: seq<Use>, f: nat)
    requires f < |use| && use[f].Table?
  {
    match use[f].slot
    case Root => true
    case Mid(i) => i < ENTRIES && Next(ts, use[f].root, i) == Some(f)
    case Low(i, j) =>
      && i < ENTRIES && j < ENTRIES && Next(ts, use[f].root, i).Some?
      && Next(ts, Next(ts, use[f].root, i).value, j) == Some(f)
  }

  /** All page tables in memory are well-formed trees, and none shares a table with another. */
  predicate Wf(ts: Tables, use: seq<Use>)
  {
    && |ts| == |use|
    && forall f :: 0 <= f < |use| && use[f].Table? ==> NodeOk(ts, use, f) && Anchored(ts, use, f)
  }

  /** The lowest-level table for page v, as walk() without alloc finds it. */
  function LowOf(ts: Tables, r: nat, v: nat): Option<nat>
  {
    match Next(ts, r, Px(2, v))
    case None => None
    case Some(m) => Next(ts, m, Px(1, v))
  }

  /** The flat map: the entry for page v in the address space with root r, zero if there is none. */
  function Leaf(ts: Tables, r: nat, v: nat): Pte
  {
    match LowOf(ts, r, v)
    case None => ZERO
    case Some(l) => if l < |ts| then ts[l][Px(0, v)] else ZERO
  }

  lemma NextUse(ts: Tables, use: seq<Use>, f: nat, k: nat)
    requires Wf(ts, use) && f < |ts| && use[f].Table? && !use[f].slot.Low? && k < ENTRIES
    ensures Next(ts, f, k).Some? ==>
              var g := Next(ts, f, k).value; g < |ts| && use[g] == Table(use[f].root, Sub(use[f].slot, k))
    ensures Next(ts, f, k).None? ==> ts[f][k] == ZERO
  {
  }

  lemma LowUse(ts: Tables, use: seq<Use>, r: nat, v: nat)
    requires Wf(ts, use) && IsRoot(use, r) && LowOf(ts, r, v).Some?
    ensures var l := LowOf(ts, r, v).value; l < |ts| && use[l] == Table(r, Low(Px(2, v), Px(1, v)))
  {
  }

  // ---- writing a leaf entry ----

  function SetEntry(ts: Tables, f: nat, k: nat, p: Pte): (r: Tables)
    requires f < |ts| && k < ENTRIES
    ensures |r| == |ts|
  {
    ts[f := ts[f][k := p]]
  }

  /** Storing an entry through walk() changes the flat map at that page of that address space,
      and at no other page of any address space. */
  lemma SetLeaf(ts: Tables, use: seq<Use>, r: nat, v: nat, p: Pte)
    requires Wf(ts, use) && IsRoot(use, r) && v < MAXVPN && LowOf(ts, r, v).Some?
    requires p == ZERO || (p.v && p.perm.Leaf())
    ensures LowOf(ts, r, v).value < |ts|
    ensures var ts' := SetEntry(ts, LowOf(ts, r, v).value, Px(0, v), p);
            && Wf(ts', use)
            && forall q, w :: IsRoot(use, q) && 0 <= w < MAXVPN ==>
                 && LowOf(ts', q, w) == LowOf(ts, q, w)
                 && Leaf(ts', q, w) == if q == r && w == v then p else Leaf(ts, q, w)
  {
    hide Px;
    LowUse(ts, use, r, v);
    var l := LowOf(ts, r, v).value;
    assert l < |ts|;
    var ts' := SetEntry(ts, l, Px(0, v), p);
    assert forall f, k :: 0 <= f < |ts| && use[f].Table? && !use[f].slot.Low? && 0 <= k < ENTRIES ==>
        Next(ts', f, k) == Next(ts, f, k);
    forall q, w | IsRoot(use, q) && 0 <= w < MAXVPN
      ensures LowOf(ts', q, w) == LowOf(ts, q, w)
      ensures Leaf(ts', q, w) == if q == r && w == v then p else Leaf(ts, q, w)
    {
      NextUse(ts, use, q, Px(2, w));
      if LowOf(ts, q, w).Some? {
        LowUse(ts, use, q, w);
        if LowOf(ts, q, w).value == l && Px(0, w) == Px(0, v) {
          PxInjective(v, w);
        }
      }
    }
  }

  // ---- adding a table ----

  predicate CanAdd(ts: Tables, use: seq<Use>, f: nat, k: nat, g: nat)
  {
    && Wf(ts, use) && f < |ts| && use[f].Table? && !use[f].slot.Low? && k < ENTRIES
    && g < |ts| && !use[g].Table? && !ts[f][k].v && (use[f].slot.Root? ==> k < ENTRIES / 2)
  }

  function Added(ts: Tables, f: nat, k: nat, g: nat): (r: Tables)
    requires f < |ts| && g < |ts| && k < ENTRIES
    ensures |r| == |ts|
  {
    SetEntry(ts[g := ZeroTable()], f, k, Pte(g, true, NO_PERM))
  }

  function AddedUse(use: seq<Use>, f: nat, k: nat, g: nat): (r: seq<Use>)
    requires f < |use| && g < |use| && use[f].Table?
    ensures |r| == |use|
  {
    use[g := Table(use[f].root, Sub(use[f].slot, k))]
  }

  lemma AddedNext(ts: Tables, use: seq<Use>, f: nat, k: nat, g: nat, h: nat, y: nat)
    requires CanAdd(ts, use, f, k, g) && h < |ts| && use[h].Table? && y < ENTRIES
    ensures Next(Added(ts, f, k, g), h, y) == if h == f && y == k then Some(g) else Next(ts, h, y)
    ensures Next(Added(ts, f, k, g), g, y) == None
    ensures Added(ts, f, k, g)[h][y] == if h == f && y == k then Pte(g, true, NO_PERM) else ts[h][y]
  {
  }

  lemma AddedNode(ts: Tables, use: seq<Use>, f: nat, k: nat, g: nat, h: nat)
    requires CanAdd(ts, use, f, k, g) && h < |ts| && (use[h].Table? || h == g)
    ensures NodeOk(Added(ts, f, k, g), AddedUse(use, f, k, g), h)
  {
    if h == g {
    } else {
      forall y | 0 <= y < ENTRIES
        ensures EntryOk(AddedUse(use, f, k, g), use[h].root, use[h].slot, y, Added(ts, f, k, g)[h][y])
      {
        AddedNext(ts, use, f, k, g, h, y);
        assert EntryOk(use, use[h].root, use[h].slot, y, ts[h][y]);
      }
    }
  }

  lemma AddedAnchored(ts: Tables, use: seq<Use>, f: nat, k: nat, g: nat, h: nat)
    requires CanAdd(ts, use, f, k, g) && h < |ts| && (use[h].Table? || h == g)
    ensures Anchored(Added(ts, f, k, g), AddedUse(use, f, k, g), h)
  {
    hide Added;
    var r := use[f].root;
    if h == g {
      AddedNext(ts, use, f, k, g, f, k);
      if use[f].slot.Mid? {
        AddedNext(ts, use, f, k, g, r, use[f].slot.i);
      }
    } else {
      var q := use[h].root;
      match use[h].slot
      case Root =>
      case Mid(i) => AddedNext(ts, use, f, k, g, q, i);
      case Low(i, j) =>
        AddedNext(ts, use, f, k, g, q, i);
        NextUse(ts, use, q, i);
        AddedNext(ts, use, f, k, g, Next(ts, q, i).value, j);
    }
  }

  lemma AddedLeaf(ts: Tables, use: seq<Use>, f: nat, k: nat, g: nat, q: nat, w: nat)
    requires CanAdd(ts, use, f, k, g) && IsRoot(use, q)
    ensures Leaf(Added(ts, f, k, g), q, w) == Leaf(ts, q, w)
    ensures LowOf(ts, q, w).Some? ==> LowOf(Added(ts, f, k, g), q, w) == LowOf(ts, q, w)
  {
    hide Px, Added;
    var ts' := Added(ts, f, k, g);
    AddedNext(ts, use, f, k, g, q, Px(2, w));
    NextUse(ts, use, q, Px(2, w));
    AddedNext(ts, use, f, k, g, q, Px(1, w));
    if Next(ts, q, Px(2, w)).Some? {
      var m := Next(ts, q, Px(2, w)).value;
      AddedNext(ts, use, f, k, g, m, Px(1, w));
      NextUse(ts, use, m, Px(1, w));
      if Next(ts, m, Px(1, w)).Some? {
        AddedNext(ts, use, f, k, g, Next(ts, m, Px(1, w)).value, Px(0, w));
      } else if m == f && Px(1, w) == k {
        AddedZero(ts, f, k, g, Px(0, w));
      }
    }
  }

  lemma AddedZero(ts: Tables, f: nat, k: nat, g: nat, y: nat)
    requires f < |ts| && g < |ts| && f != g && k < ENTRIES && y < ENTRIES
    ensures Added(ts, f, k, g)[g][y] == ZERO
  {
  }

  /** Linking a zeroed frame g in as the table below entry k of table f keeps the trees well formed
      and changes no address space. */
  lemma AddTable(ts: Tables, use: seq<Use>, f: nat, k: nat, g: nat)
    requires CanAdd(ts, use, f, k, g)
    ensures Wf(Added(ts, f, k, g), AddedUse(use, f, k, g))
    ensures forall q, w :: IsRoot(use, q) ==> Leaf(Added(ts, f, k, g), q, w) == Leaf(ts, q, w)
    ensures forall q, w :: IsRoot(use, q) && LowOf(ts, q, w).Some? ==>
            LowOf(Added(ts, f, k, g), q, w) == LowOf(ts, q, w)
  {
    hide Leaf, LowOf, NodeOk, Anchored, Added;
    var ts', use' := Added(ts, f, k, g), AddedUse(use, f, k, g);
    forall h | 0 <= h < |use'| && use'[h].Table?
      ensures NodeOk(ts', use', h) && Anchored(ts', use', h)
    {
      AddedNode(ts, use, f, k, g, h);
      AddedAnchored(ts, use, f, k, g, h);
    }
    forall q, w | IsRoot(use, q)
      ensures Leaf(ts', q, w) == Leaf(ts, q, w)
      ensures LowOf(ts, q, w).Some? ==> LowOf(ts', q, w) == LowOf(ts, q, w)
    {
      AddedLeaf(ts, use, f, k, g, q, w);
    }
  }
}
