/** Reporting which pages have been accessed (kernel/proc.c: pgaccess). */
module PageAccess {
  import opened Common
  import opened Sv39
  import opened PageTable
  import opened VirtualMemory
  import Blocks

  /** The page is mapped and its accessed bit is set. */
  predicate Accessed(ts: Tables, root: nat, w: nat) { Leaf(ts, root, w).v && Leaf(ts, root, w).perm.a }

  function WithoutA(p: Pte): Pte { p.(perm := p.perm.(a := false)) }

  /** Bit i of the mask tells whether page first + i was accessed, for the n pages asked about. */
  ghost predicate Reports(ts: Tables, root: nat, first: nat, n: nat, mask: nat)
  {
    && mask < Blocks.Pow2(32)
    && forall i :: 0 <= i < 32 ==> (Blocks.Bit(mask, i) <==> i < n && Accessed(ts, root, first + i))
  }

  /** The accessed bits of the n pages are cleared; no other bit of any entry changes. */
  ghost predicate ClearedA(ts0: Tables, use: seq<Use>, ts1: Tables, root: nat, first: nat, n: nat)
  {
    forall q, w :: IsRoot(use, q) && 0 <= w < MAXVPN ==>
      Leaf(ts1, q, w) == if q == root && first <= w < first + n && Leaf(ts0, q, w).v then WithoutA(Leaf(ts0, q, w))
                         else Leaf(ts0, q, w)
  }

  lemma {:induction false} NoBits(mask: nat, n: nat)
    requires mask < Blocks.Pow2(n) && forall i :: 0 <= i < n ==> !Blocks.Bit(mask, i)
    ensures mask == 0
  {
    if n > 0 {
      assert !Blocks.Bit(mask, 0);
      forall i | 0 <= i < n - 1
        ensures !Blocks.Bit(mask / 2, i)
      {
        assert !Blocks.Bit(mask, i + 1);
      }
      NoBits(mask / 2, n - 1);
    }
  }

  /** Asking again before the pages are accessed again reports none. */
  lemma RepeatIsZero(ts0: Tables, use: seq<Use>, ts1: Tables, root: nat, first: nat, n: nat, mask: nat)
    requires IsRoot(use, root) && first + n <= MAXVPN
    requires ClearedA(ts0, use, ts1, root, first, n) && Reports(ts1, root, first, n, mask)
    ensures mask == 0
  {
    hide Leaf, Blocks.Bit, Blocks.Pow2;
    forall i | 0 <= i < 32
      ensures !Blocks.Bit(mask, i)
    {
      if i < n {
        assert !Accessed(ts1, root, first + i);
      }
    }
    NoBits(mask, 32);
  }

  /** pgaccess(), up to the copyout of the mask. The test for a valid entry in the source only asks
      whether the entry is nonzero; that every entry is zero or valid makes it the right test. */
  method PgAccess(m: Memory, root: nat, first: nat, n: nat) returns (mask: nat)
    requires m.Valid() && Back(m.ts, m.use) && IsRoot(m.use, root) && n <= 32 && first + n <= MAXVPN
    modifies m`ts
    ensures m.Valid() && Back(m.ts, m.use)
    ensures Reports(old(m.ts), root, first, n, mask)
    ensures ClearedA(old(m.ts), m.use, m.ts, root, first, n)
  {
    hide Wf, FreeOk, Leaf, Back, Blocks.Bit, Blocks.Pow2, Blocks.WithBit, IsRoot;
    ghost var ts0 := m.ts;
    mask := 0;
    NothingYet();
    var i := 0;
    while i < n
      invariant 0 <= i <= n && m.Valid() && Back(m.ts, m.use)
      invariant Reports(ts0, root, first, i, mask) && ClearedA(ts0, m.use, m.ts, root, first, i)
    {
      ghost var ts1 := m.ts;
      var hit := ClearOne(m, root, first + i);
      var mask0 := mask;
      if hit {
        mask := Blocks.WithBit(mask, i, true);
      }
      OneMore(ts0, m.use, ts1, m.ts, root, first, i, mask0, mask, hit);
      i := i + 1;
    }
  }

  lemma NothingYet()
    ensures 0 < Blocks.Pow2(32) && forall i :: 0 <= i < 32 ==> !Blocks.Bit(0, i)
  {
    Positive(32);
    forall i | 0 <= i < 32
      ensures !Blocks.Bit(0, i)
    {
      Blocks.ZeroBits(i);
    }
  }

  lemma {:induction false} Positive(w: nat)
    ensures Blocks.Pow2(w) > 0
  {
    if w > 0 { Positive(w - 1); }
  }

  lemma OneMore(ts0: Tables, use: seq<Use>, ts1: Tables, ts2: Tables, root: nat, first: nat, i: nat, mask0: nat,
                mask: nat, hit: bool)
    requires IsRoot(use, root) && i < 32 && first + i < MAXVPN
    requires Reports(ts0, root, first, i, mask0) && ClearedA(ts0, use, ts1, root, first, i)
    requires hit == Accessed(ts1, root, first + i) && ClearedA(ts1, use, ts2, root, first + i, 1)
    requires mask == if hit then Blocks.WithBit(mask0, i, true) else mask0
    ensures Reports(ts0, root, first, i + 1, mask) && ClearedA(ts0, use, ts2, root, first, i + 1)
  {
    hide Leaf, Blocks.Bit, Blocks.Pow2, Blocks.WithBit;
    Blocks.WithBitFits(mask0, i, true, 32);
    forall j | 0 <= j < 32
      ensures Blocks.Bit(mask, j) <==> j < i + 1 && Accessed(ts0, root, first + j)
    {
      Blocks.WithBitReads(mask0, i, true, j);
    }
  }

  /** One turn of pgaccess()'s loop. */
  method ClearOne(m: Memory, root: nat, w: nat) returns (hit: bool)
    requires m.Valid() && Back(m.ts, m.use) && IsRoot(m.use, root) && w < MAXVPN
    modifies m`ts
    ensures m.Valid() && Back(m.ts, m.use)
    ensures hit == old(Accessed(m.ts, root, w)) && ClearedA(old(m.ts), m.use, m.ts, root, w, 1)
  {
    hide Wf, FreeOk, Leaf, Back, LowOf, Px;
    ghost var ts0 := m.ts;
    LeafCases(m.ts, m.use, root, w);
    var t := LowOf(m.ts, root, w);
    if t.None? {
      return false;
    }
    LowUse(m.ts, m.use, root, w);
    var p := m.ts[t.value][Px(0, w)];
    hit := p != ZERO && p.perm.a;
    if hit {
      LeafPerm(m.ts, m.use, root, w);
      SetLeaf(m.ts, m.use, root, w, WithoutA(p));
      m.ts := m.ts[t.value := m.ts[t.value][Px(0, w) := WithoutA(p)]];
      BackRemapped(ts0, m.ts, m.use, root, w);
    }
  }

  /** What walk() without alloc finds, and that an entry is zero or valid. */
  lemma LeafCases(ts: Tables, use: seq<Use>, root: nat, w: nat)
    requires Wf(ts, use) && IsRoot(use, root)
    ensures LowOf(ts, root, w).None? ==> Leaf(ts, root, w) == ZERO
    ensures LowOf(ts, root, w).Some? ==>
              LowOf(ts, root, w).value < |ts| && Leaf(ts, root, w) == ts[LowOf(ts, root, w).value][Px(0, w)]
    ensures Leaf(ts, root, w) == ZERO || Leaf(ts, root, w).v
  {
  }
}
