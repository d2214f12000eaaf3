/** The user-level memory allocator (user/umalloc.c). Addresses count in units of sizeof(Header) bytes. */
module Umalloc {
  import opened Common

  /** y follows x in the free list: the next higher free block, or base after the highest. */
  ghost predicate Follows(free: set<nat>, base: nat, x: nat, y: nat)
  {
    || (y in free && x < y && forall z :: z in free ==> z <= x || y <= z)
    || (y == base && forall z :: z in free ==> z <= x)
  }

  /** The free list is one ring through base and the free blocks, in order of address with one wrap. */
  ghost predicate Ring(free: set<nat>, base: nat, ptr: map<nat, nat>)
  {
    forall x :: x in free || x == base ==> x in ptr && Follows(free, base, x, ptr[x])
  }

  /** The n units from a on are tiles of block a. */
  ghost predicate Covers(tile: map<nat, nat>, a: nat, n: nat)
  {
    forall u :: a <= u < a + n ==> u in tile && tile[u] == a
  }

  ghost predicate BlockOk(tile: map<nat, nat>, size: map<nat, nat>, a: nat) { a in size && size[a] > 0
          && Covers(tile, a, size[a]) }

  ghost predicate UnitOk(tile: map<nat, nat>, blocks: set<nat>, size: map<nat, nat>, u: nat)
    requires u in tile
  {
    tile[u] in blocks && tile[u] in size && tile[u] <= u < tile[u] + size[tile[u]]
  }

  /** Each unit obtained from the system is in exactly one block. */
  ghost predicate Tiled(tile: map<nat, nat>, blocks: set<nat>, size: map<nat, nat>)
  {
    && (forall a :: a in blocks ==> BlockOk(tile, size, a))
    && (forall u :: u in tile ==> UnitOk(tile, blocks, size, u))
  }

  /** No free block ends where another one begins. */
  ghost predicate Coalesced(free: set<nat>, size: map<nat, nat>)
    requires forall a :: a in free ==> a in size
  {
    forall a, b :: a in free && b in free ==> a + size[a] != b
  }

  /** Going round the ring from x, z comes before y. */
  predicate Between(x: nat, y: nat, z: nat)
  {
    if x < y then x < z < y else x < z || z < y
  }

  /** Tiles after block a has become part of, or has been cut off as, block b. */
  function Retiled(tile: map<nat, nat>, from: nat, to: nat, b: nat): (r: map<nat, nat>)
    ensures r.Keys == tile.Keys
    ensures forall u :: u in tile ==> r[u] == if from <= u < to then b else tile[u]
  {
    map u | u in tile :: if from <= u < to then b else tile[u]
  }

  /** Tiles after n units from address b on have become block b. */
  function Extended(tile: map<nat, nat>, b: nat, n: nat): (r: map<nat, nat>)
    ensures forall u :: u in r <==> u in tile || b <= u < b + n
    ensures forall u :: u in r ==> r[u] == if b <= u < b + n then b else tile[u]
  {
    if n == 0 then tile else Extended(tile, b, n - 1)[b + n - 1 := b]
  }

  // ---- the ring ----

  lemma Inserted(free: set<nat>, base: nat, ptr: map<nat, nat>, p: nat, bp: nat)
    requires Ring(free, base, ptr) && (p in free || p == base) && p < bp && bp !in free && base < bp
    requires forall z :: z in free ==> base < z && (z <= p || bp < z)
    ensures Ring(free + {bp}, base, ptr[bp := ptr[p]][p := bp])
  {
  }

  lemma Removed(free: set<nat>, base: nat, ptr: map<nat, nat>, x: nat, y: nat)
    requires Ring(free, base, ptr) && (x in free || x == base) && y in free && ptr[x] == y && forall z :: z in free ==>
             base < z
    ensures Ring(free - {y}, base, ptr[x := ptr[y]])
  {
  }

  lemma RingSame(free: set<nat>, base: nat, ptr0: map<nat, nat>, ptr1: map<nat, nat>)
    requires Ring(free, base, ptr0) && forall x :: (x in free || x == base) && x in ptr0 ==>
             x in ptr1 && ptr1[x] == ptr0[x]
    ensures Ring(free, base, ptr1)
  {
  }

  // ---- tiles ----

  /** Blocks do not overlap. */
  lemma Disjoint(tile: map<nat, nat>, blocks: set<nat>, size: map<nat, nat>, a: nat, b: nat)
    requires Tiled(tile, blocks, size) && a in blocks && b in blocks && a < b
    ensures a in size && a + size[a] <= b
  {
    assert BlockOk(tile, size, a) && BlockOk(tile, size, b);
    assert b in tile && tile[b] == b;
  }

  /** Changing tiles of one block does not affect another. */
  lemma CoversStill(tile: map<nat, nat>, c: nat, n: nat, owner: nat, from: nat, to: nat, b: nat)
    requires Covers(tile, c, n) && c != owner && forall u :: from <= u < to ==> u in tile && tile[u] == owner
    ensures Covers(Retiled(tile, from, to, b), c, n)
  {
  }

  lemma Merged(tile: map<nat, nat>, blocks: set<nat>, size: map<nat, nat>, a: nat, b: nat)
    requires Tiled(tile, blocks, size) && a in blocks && b in blocks && a in size && b in size && a + size[a] == b
    ensures Tiled(Retiled(tile, b, b + size[b], a), blocks - {b}, size[a := size[a] + size[b]])
  {
    hide Covers;
    var tile1, blocks1, size1 := Retiled(tile, b, b + size[b], a), blocks - {b}, size[a := size[a] + size[b]];
    assert BlockOk(tile, size, a) && BlockOk(tile, size, b);
    CoversBoth(tile, size, a, b);
    forall c | c in blocks1
      ensures BlockOk(tile1, size1, c)
    {
      assert BlockOk(tile, size, c);
      if c != a {
        CoversAll(tile, b, size[b]);
        CoversStill(tile, c, size[c], b, b, b + size[b], a);
      }
    }
    forall u | u in tile1
      ensures UnitOk(tile1, blocks1, size1, u)
    {
      assert UnitOk(tile, blocks, size, u);
    }
  }

  lemma CoversAll(tile: map<nat, nat>, b: nat, n: nat)
    requires Covers(tile, b, n)
    ensures forall u :: b <= u < b + n ==> u in tile && tile[u] == b
  {
  }

  lemma CoversBoth(tile: map<nat, nat>, size: map<nat, nat>, a: nat, b: nat)
    requires a in size && b in size && Covers(tile, a, size[a]) && Covers(tile, b, size[b]) && a + size[a] == b
    ensures Covers(Retiled(tile, b, b + size[b], a), a, size[a] + size[b])
  {
  }

  /** The last n units of block p become a block of their own. */
  lemma Cut(tile: map<nat, nat>, blocks: set<nat>, size: map<nat, nat>, p: nat, n: nat)
    requires Tiled(tile, blocks, size) && p in blocks && p in size && 0 < n < size[p]
    ensures var b := p + size[p] - n;
            b !in blocks && Tiled(Retiled(tile, b, b + n, b), blocks + {b}, size[p := size[p] - n][b := n])
  {
    hide Covers, UnitOk;
    var b := p + size[p] - n;
    var tile1, size1 := Retiled(tile, b, b + n, b), size[p := size[p] - n][b := n];
    assert BlockOk(tile, size, p);
    CutUnits(tile, tile1, blocks, size, size1, p, b, n);
    CutBlocks(tile, tile1, blocks, size, size1, p, b, n);
  }

  lemma CutBlocks(tile: map<nat, nat>, tile1: map<nat, nat>, blocks: set<nat>, size: map<nat, nat>, size1: map<nat,
                  nat>, p: nat, b: nat, n: nat)
    requires Tiled(tile, blocks, size) && p in blocks && p in size && 0 < n < size[p] && Covers(tile, p, size[p])
    requires b == p + size[p] - n
    requires tile1 == Retiled(tile, b, b + n, b) && size1 == size[p := size[p] - n][b := n]
    ensures b !in blocks && forall c :: c in blocks + {b} ==> BlockOk(tile1, size1, c)
  {
    hide Covers, UnitOk;
    CoversAll(tile, p, size[p]);
    assert b in tile && tile[b] == p;
    NotABlock(tile, blocks, size, p, b);
    CutCovers(tile, p, size[p], n);
    forall c | c in blocks && c != p
      ensures BlockOk(tile1, size1, c)
    {
      assert BlockOk(tile, size, c);
      CoversStill(tile, c, size[c], p, b, b + n, b);
    }
  }

  lemma CutUnits(tile: map<nat, nat>, tile1: map<nat, nat>, blocks: set<nat>, size: map<nat, nat>, size1: map<nat, nat>,
                 p: nat, b: nat, n: nat)
    requires Tiled(tile, blocks, size) && p in blocks && p in size && 0 < n < size[p] && Covers(tile, p, size[p])
    requires b == p + size[p] - n
    requires tile1 == Retiled(tile, b, b + n, b) && size1 == size[p := size[p] - n][b := n]
    ensures forall u :: u in tile1 ==> UnitOk(tile1, blocks + {b}, size1, u)
  {
    hide BlockOk, Covers;
    CoversAll(tile, p, size[p]);
    assert b in tile && tile[b] == p;
    NotABlock(tile, blocks, size, p, b);
    forall u | u in tile1
      ensures UnitOk(tile1, blocks + {b}, size1, u)
    {
      assert UnitOk(tile, blocks, size, u);
    }
  }

  lemma NotABlock(tile: map<nat, nat>, blocks: set<nat>, size: map<nat, nat>, p: nat, b: nat)
    requires Tiled(tile, blocks, size) && b in tile && tile[b] == p && p != b
    ensures b !in blocks
  {
  }

  lemma CutCovers(tile: map<nat, nat>, p: nat, m: nat, n: nat)
    requires Covers(tile, p, m) && n < m
    ensures var b := p + m - n; Covers(Retiled(tile, b, b + n, b), p, m - n) && Covers(Retiled(tile, b, b + n, b), b, n)
  {
  }

  /** A new block above all others. */
  lemma Grown(tile: map<nat, nat>, blocks: set<nat>, size: map<nat, nat>, b: nat, n: nat)
    requires Tiled(tile, blocks, size) && n > 0 && forall u :: u in tile ==> u < b
    ensures b !in blocks && Tiled(Extended(tile, b, n), blocks + {b}, size[b := n])
  {
    hide Covers;
    var tile1, blocks1, size1 := Extended(tile, b, n), blocks + {b}, size[b := n];
    NewCovers(tile, blocks, size, b, n);
    forall c | c in blocks
      ensures BlockOk(tile1, size1, c)
    {
      assert BlockOk(tile, size, c);
      CoversExtended(tile, c, size[c], b, n);
    }
    forall u | u in tile1
      ensures UnitOk(tile1, blocks1, size1, u)
    {
      if u in tile {
        assert UnitOk(tile, blocks, size, u);
      }
    }
  }

  lemma NewCovers(tile: map<nat, nat>, blocks: set<nat>, size: map<nat, nat>, b: nat, n: nat)
    requires Tiled(tile, blocks, size) && forall u :: u in tile ==> u < b
    ensures b !in blocks && Covers(Extended(tile, b, n), b, n)
  {
    assert b !in tile;
    assert b in blocks ==> BlockOk(tile, size, b);
  }

  lemma CoversExtended(tile: map<nat, nat>, c: nat, m: nat, b: nat, n: nat)
    requires Covers(tile, c, m) && forall u :: u in tile ==> u < b
    ensures Covers(Extended(tile, b, n), c, m)
  {
  }

  // ---- free() ----

  /** The ring after free() has put bp between p and q, merging it with its neighbours as they touch. */
  lemma RingAfterFree(free: set<nat>, base: nat, ptr: map<nat, nat>, ptr1: map<nat, nat>, p: nat, bp: nat, q: nat,
                      up: bool, low: bool)
    requires Ring(free, base, ptr) && (p in free || p == base) && p < bp && bp !in free && base < bp && ptr[p] == q
    requires forall z :: z in free ==> base < z && (z <= p || bp < z)
    requires up ==> q in free
    requires ptr1 == (var ptr0 := ptr[bp := if up then ptr[q] else q]; ptr0[p := if low then ptr0[bp] else bp])
    ensures Ring((if up then free - {q} else free) + (if low then {} else {bp}), base, ptr1)
  {
    hide Ring;
    PlaceFacts(free, base, ptr, p);
    if low {
      if up {
        Removed(free, base, ptr, p, q);
        assert free - {q} + {} == free - {q};
        RingSame(free - {q}, base, ptr[p := ptr[q]], ptr1);
      } else {
        assert free + {} == free;
        RingSame(free, base, ptr, ptr1);
      }
    } else {
      Inserted(free, base, ptr, p, bp);
      if up {
        var ptr2 := ptr[bp := q][p := bp];
        Removed(free + {bp}, base, ptr2, bp, q);
        assert free + {bp} - {q} == free - {q} + {bp};
        RingSame(free - {q} + {bp}, base, ptr2[bp := ptr2[q]], ptr1);
      }
    }
  }

  /** The neighbours of a freed block are the only free blocks that can touch it. */
  lemma OnlyNeighbours(tile: map<nat, nat>, blocks: set<nat>, size: map<nat, nat>, free: set<nat>, base: nat, p: nat,
                       bp: nat, q: nat)
    requires Tiled(tile, blocks, size) && free <= blocks && bp in blocks && bp !in free && bp in size
    requires (p in free || p == base) && p < bp
    requires forall z :: z in free ==> base < z && z in size && (z <= p || bp < z)
    requires Follows(free, base, p, q) && base < bp
    ensures forall z :: z in free && z + size[z] == bp ==> z == p
    ensures forall z :: z in free && bp + size[bp] == z ==> z == q
  {
    hide Tiled;
    forall z | z in free && z + size[z] == bp
      ensures z == p
    {
      if z < p {
        Disjoint(tile, blocks, size, z, p);
      }
    }
    forall z | z in free && bp + size[bp] == z
      ensures z == q
    {
      if q < z && q in free {
        Disjoint(tile, blocks, size, bp, q);
      }
    }
  }

  /** When the neighbours that touched the freed block have been merged with it, no two free blocks touch. */
  lemma CoalescedAfter(tile: map<nat, nat>, blocks: set<nat>, size: map<nat, nat>, free: set<nat>, base: nat, p: nat,
                       bp: nat, q: nat, up: bool, low: bool, size1: map<nat, nat>, free1: set<nat>)
    requires Tiled(tile, blocks, size) && free <= blocks && bp in blocks && bp !in free && bp in size
    requires (p in free || p == base) && p < bp
    requires forall z :: z in free ==> base < z && z in size && (z <= p || bp < z)
    requires Follows(free, base, p, q) && base < bp && Coalesced(free, size) && size[bp] > 0
    requires up <==> q in free && bp + size[bp] == q
    requires low <==> p in free && p + size[p] == bp
    requires size1 == (var size0 := if up then size[bp := size[bp] + size[q]] else size;
                       if low then size0[p := size[p] + size0[bp]] else size0)
    requires free1 == (if up then free - {q} else free) + (if low then {} else {bp})
    ensures (forall a :: a in free1 ==> a in size1) && Coalesced(free1, size1)
  {
    hide Tiled, Follows;
    OnlyNeighbours(tile, blocks, size, free, base, p, bp, q);
  }

  class Allocator {
    /** The address of the static header, below the heap. */
    const base: nat
    var freep: Option<nat>
    /** The fields of headers in memory. */
    var ptr: map<nat, nat>
    var size: map<nat, nat>
    /** Free and live blocks by the address of their headers, and for each unit obtained its block. */
    ghost var free: set<nat>
    ghost var live: set<nat>
    ghost var tile: map<nat, nat>

    ghost predicate Valid()
      reads this
    {
      && free !! live && Tiled(tile, free + live, size) && (forall u :: u in tile ==> base < u)
      && (freep.None? ==> free == {} && live == {} && tile == map[])
      && (freep.Some? ==> Linked() && (freep.value in free || freep.value == base))
    }

    ghost predicate Linked()
      reads this
    {
      && Ring(free, base, ptr) && base in size && size[base] == 0
      && (forall a :: a in free || a in live ==> a in size && base < a) && Coalesced(free, size)
    }

    constructor (base: nat)
      ensures Valid() && this.base == base && free == {} && live == {} && tile == map[] && freep == None
    {
      this.base := base;
      freep := None;
      ptr, size, free, live, tile := map[], map[], {}, {}, map[];
    }

    /** free(): the block joins the free list, merged with free neighbours. All other live blocks and the
        memory obtained from the system stay as they are. */
    method Free(ap: nat)
      requires Valid() && freep.Some? && ap > 0 && ap - 1 in live
      modifies this
      ensures Valid() && freep.Some? && live == old(live) - {ap - 1} && tile.Keys == old(tile).Keys
      ensures forall a :: a in live ==> a in size && a in old(size) && size[a] == old(size)[a]
      ensures Holds(freep.value, old(size)[ap - 1])
    {
      hide Tiled, Ring, Coalesced, Follows, SizeAfter, PtrAfter, FreeAfter, TilesAfter;
      var bp := ap - 1;
      var p := FindPlace(bp);
      ghost var ptr0, size0, free0, tile0 := ptr, size, free, tile;
      PlaceFacts(free, base, ptr, p);
      SizeOf(tile, free + live, size, bp);
      ghost var q := ptr[p];
      ghost var up, low := bp + size[bp] == q, p + size[p] == bp;
      Join(p, bp);
      freep := Some(p);
      FreeOk(tile0, free0, live, size0, ptr0, base, p, bp, q, up, low);
      live := live - {bp};
      free := FreeAfter(free0, bp, q, up, low);
      tile := TilesAfter(tile0, size0, p, bp, q, up, low);
    }

    /** Put bp after p in the free list, merging it with its upper and its lower neighbour. */
    method Join(p: nat, bp: nat)
      requires p in ptr && p in size && bp in size && p != bp && ptr[p] != bp
      requires bp + size[bp] == ptr[p] ==> ptr[p] in ptr && ptr[p] in size
      modifies this`ptr, this`size
      ensures var q := old(ptr)[p]; var up, low := bp + old(size)[bp] == q, p + old(size)[p] == bp;
              size == SizeAfter(old(size), p, bp, q, up, low) && ptr == PtrAfter(old(ptr), p, bp, q, up, low)
    {
      if bp + size[bp] == ptr[p] {
        size := size[bp := size[bp] + size[ptr[p]]];
        ptr := ptr[bp := ptr[ptr[p]]];
      } else {
        ptr := ptr[bp := ptr[p]];
      }
      if p + size[p] == bp {
        size := size[p := size[p] + size[bp]];
        ptr := ptr[p := ptr[bp]];
      } else {
        ptr := ptr[p := bp];
      }
    }

    /** The block after p in the ring, or p itself, has room for n units. */
    ghost predicate Holds(p: nat, n: nat)
      reads this
    {
      (p in size && p in free && size[p] >= n) || (p in ptr && ptr[p] in free && ptr[p] in size && size[ptr[p]] >= n)
    }

    /** The loop of free(): the block of the free list after which bp belongs. */
    method FindPlace(bp: nat) returns (p: nat)
      requires Valid() && freep.Some? && bp in live
      ensures (p in free || p == base) && p < bp && base < bp && forall z :: z in free ==>
              base < z && (z <= p || bp < z)
    {
      hide Tiled, Coalesced;
      p := freep.value;
      while !(p < bp && bp < ptr[p])
        invariant p in free || p == base
        decreases bp <= p, set z | z in free && p < z
      {
        assert Follows(free, base, p, ptr[p]);
        if p >= ptr[p] && (bp > p || bp < ptr[p]) {
          return;
        }
        ghost var ahead := set z | z in free && p < z;
        assert ptr[p] in free ==> ptr[p] in ahead;
        p := ptr[p];
      }
      assert Follows(free, base, p, ptr[p]);
    }

    /** morecore(): memory from the system, at least 4096 units of it, joins the free list. The kernel's
        answer to sbrk() is given: the address of the new memory, or that there is none. */
    method MoreCore(n: nat, core: Option<nat>) returns (ok: bool)
      requires Valid() && freep.Some? && n > 0
      requires core.Some? ==> base < core.value && forall u :: u in tile ==> u < core.value
      modifies this
      ensures Valid() && freep.Some? && live == old(live) && (ok <==> core.Some?)
      ensures forall a :: a in live ==> a in size && a in old(size) && size[a] == old(size)[a]
      ensures !ok ==>
                freep == old(freep) && free == old(free) && size == old(size) && ptr == old(ptr) && tile == old(tile)
      ensures ok ==> Holds(freep.value, n) && forall u :: u in tile <==>
              u in old(tile) || core.value <= u < core.value + Units(n)
    {
      hide Tiled, Ring, Coalesced, Follows;
      var nu := Units(n);
      if core.None? {
        return false;
      }
      var hp := core.value;
      ghost var size0 := size;
      Grown(tile, free + live, size, hp, nu);
      LiveSizes(tile, free + live, size);
      size := size[hp := nu];
      live := live + {hp};
      tile := Extended(tile, hp, nu);
      assert free + live == old(free + live) + {hp};
      StillCoalesced(free, size0, size);
      Free(hp + 1);
      assert live == old(live);
      ok := true;
    }

    /** malloc() takes a block of n units: all of free block p, which comes after prevp, or its end. */
    method Allot(prevp: nat, p: nat, n: nat) returns (r: Option<nat>)
      requires Valid() && freep.Some? && (prevp in free || prevp == base) && prevp in ptr && ptr[prevp] == p
      requires p in free && size[p] >= n > 0
      modifies this
      ensures Valid() && freep == Some(prevp) && tile.Keys == old(tile).Keys
      ensures forall a :: a in old(live) ==> a in size && a in old(size) && size[a] == old(size)[a]
      ensures r.Some? && r.value > 0 && r.value - 1 !in old(live) && live == old(live) + {r.value - 1}
      ensures r.value - 1 in size && size[r.value - 1] == n
    {
      hide Tiled, Ring, Coalesced, Follows;
      PlaceFacts(free, base, ptr, p);
      var a := p;
      if size[p] == n {
        Removed(free, base, ptr, prevp, p);
        FewerCoalesced(free, free - {p}, size);
        NotItself(free, base, ptr, p);
        ptr := ptr[prevp := ptr[p]];
        assert (free - {p}) + (live + {p}) == free + live;
        free, live := free - {p}, live + {p};
      } else {
        ghost var size0 := size;
        Cut(tile, free + live, size, p, n);
        CutCoalesced(tile, free + live, free, size, p, n);
        size := size[p := size[p] - n];
        a := p + size[p];
        size := size[a := n];
        tile := Retiled(tile, a, a + n, a);
        live := live + {a};
        assert free + live == old(free + live) + {a};
      }
      freep := Some(prevp);
      r := Some(a + 1);
    }

    /** The first call of malloc() sets up an empty free list. */
    method Init()
      requires Valid() && freep.None?
      modifies this`freep, this`ptr, this`size
      ensures Valid() && freep == Some(base)
    {
      freep := Some(base);
      ptr := ptr[base := base];
      size := size[base := 0];
      assert Follows(free, base, base, base);
    }

    /** No free block has n units. */
    ghost predicate NoneFits(n: nat)
      reads this
    {
      forall z :: z in free ==> z in size && size[z] < n
    }

    lemma FreeSizes()
      requires Valid()
      ensures forall z :: z in free ==> z in size
    {
    }

    /** malloc(): a block with room for nbytes bytes that no one else has. The system is asked for memory at most
        once, and only if no free block is large enough; malloc() fails if and only if it then has none. */
    method Malloc(nbytes: nat, core: Option<nat>) returns (r: Option<nat>)
      requires Valid() && 16 * Units(UnitsFor(nbytes)) < 0x8000_0000
      requires core.Some? ==> base < core.value && forall u :: u in tile ==> u < core.value
      modifies this
      ensures Valid() && freep.Some?
      ensures forall a :: a in old(live) ==> a in live && a in size && a in old(size) && size[a] == old(size)[a]
      ensures r.None? <==> core.None? && old(NoneFits(UnitsFor(nbytes)))
      ensures r.None? ==> live == old(live) && free == old(free) && tile.Keys == old(tile).Keys
      ensures r.Some? ==>
                && r.value > 0 && r.value - 1 !in old(live) && live == old(live) + {r.value - 1}
                && r.value - 1 in size && size[r.value - 1] == UnitsFor(nbytes)
      ensures tile.Keys == old(tile).Keys
              || (old(NoneFits(UnitsFor(nbytes))) && core.Some? && forall u :: u in tile <==>
                  u in old(tile) || core.value <= u < core.value + Units(UnitsFor(nbytes)))
    {
      hide Tiled, Ring, Coalesced, Follows, Between;
      var nunits := UnitsFor(nbytes);
      if freep.None? {
        Init();
      }
      ghost var grown, big := false, 0;
      FreeSizes();
      var prevp := freep.value;
      FirstStep(free, base, ptr, prevp);
      var p := ptr[prevp];
      while true
        invariant Valid() && freep.Some? && (prevp in free || prevp == base) && prevp in ptr && ptr[prevp] == p
        invariant (p in free || p == base)
        invariant forall z :: (z in free || z == base) && Between(freep.value, p, z) ==> size[z] < nunits
        invariant grown ==> big in free && size[big] >= nunits
        invariant if grown then old(NoneFits(nunits)) else free == old(free) && forall z :: z in free ==>
                  old(z in size) && size[z] == old(size)[z]
        invariant live == old(live) && forall a :: a in live ==> a in size && a in old(size) && size[a] == old(size)[a]
        invariant if grown then core.Some? && forall u :: u in tile <==>
                  u in old(tile) || core.value <= u < core.value + Units(nunits)
                  else tile.Keys == old(tile).Keys
        decreases !grown, freep.value < p, set z | z in free && p < z
      {
        if size[p] >= nunits {
          r := Allot(prevp, p, nunits);
          return;
        }
        if p == freep.value {
          AllSeen(free, base, freep.value);
          var ok := MoreCore(nunits, core);
          if !ok {
            return None;
          }
          grown, big := true, if freep.value in free && size[freep.value] >= nunits then freep.value
              else ptr[freep.value];
          prevp := freep.value;
          FirstStep(free, base, ptr, prevp);
          p := ptr[prevp];
        } else {
          NextStep(free, base, ptr, freep.value, p);
          ghost var ahead := set z | z in free && p < z;
          assert ptr[p] in free && p < ptr[p] ==> ptr[p] in ahead;
          prevp := p;
          p := ptr[p];
        }
      }
    }
  }

  /** (nbytes + sizeof(Header) - 1) / sizeof(Header) + 1 */
  function UnitsFor(nbytes: nat): (n: nat)
    ensures n > 0 && 16 * (n - 1) >= nbytes && 16 * (n - 1) < nbytes + 16
  {
    (nbytes + 15) / 16 + 1
  }

  /** What morecore() asks for. */
  function Units(n: nat): nat { if n < 4096 then 4096 else n }

  lemma LiveSizes(tile: map<nat, nat>, blocks: set<nat>, size: map<nat, nat>)
    requires Tiled(tile, blocks, size)
    ensures forall a :: a in blocks ==> a in size && size[a] > 0 && a in tile
  {
  }

  lemma StillCoalesced(free: set<nat>, size0: map<nat, nat>, size1: map<nat, nat>)
    requires (forall a :: a in free ==> a in size0 && a in size1 && size1[a] == size0[a]) && Coalesced(free, size0)
    ensures Coalesced(free, size1)
  {
  }

  lemma FewerCoalesced(free: set<nat>, free1: set<nat>, size: map<nat, nat>)
    requires (forall a :: a in free ==> a in size) && Coalesced(free, size) && free1 <= free
    ensures Coalesced(free1, size)
  {
  }

  lemma NotItself(free: set<nat>, base: nat, ptr: map<nat, nat>, p: nat)
    requires Ring(free, base, ptr) && p in free && p != base
    ensures p in ptr && ptr[p] != p
  {
  }

  lemma CutCoalesced(tile: map<nat, nat>, blocks: set<nat>, free: set<nat>, size: map<nat, nat>, p: nat, n: nat)
    requires Tiled(tile, blocks, size) && free <= blocks && (forall a :: a in free ==> a in size)
    requires Coalesced(free, size)
    requires p in free && 0 < n < size[p]
    ensures var b := p + size[p] - n; b !in blocks && Coalesced(free, size[p := size[p] - n][b := n])
  {
    hide Tiled;
    Cut(tile, blocks, size, p, n);
  }

  /** Nothing lies between a block of the ring and the next one. */
  lemma FirstStep(free: set<nat>, base: nat, ptr: map<nat, nat>, x: nat)
    requires Ring(free, base, ptr) && (x in free || x == base) && forall z :: z in free ==> base < z
    ensures x in ptr && (ptr[x] in free || ptr[x] == base)
    ensures forall z :: z in free || z == base ==> !Between(x, ptr[x], z)
  {
  }

  /** One step further from p, towards f again. */
  lemma NextStep(free: set<nat>, base: nat, ptr: map<nat, nat>, f: nat, p: nat)
    requires Ring(free, base, ptr) && (f in free || f == base) && (p in free || p == base) && p != f && forall z ::
             z in free ==> base < z
    ensures p in ptr && (ptr[p] in free || ptr[p] == base)
    ensures forall z :: (z in free || z == base) && Between(f, ptr[p], z) ==> Between(f, p, z) || z == p
    ensures (f < p && ptr[p] <= f) || (p < ptr[p] && ptr[p] in free && (f < p <==> f < ptr[p]))
  {
  }

  /** Back where it started, the search has seen all others. */
  lemma AllSeen(free: set<nat>, base: nat, f: nat)
    ensures forall z :: z != f ==> Between(f, f, z)
  {
  }

  /** What free() does to the blocks, the free list and the tiles. */
  lemma FreeOk(tile: map<nat, nat>, free: set<nat>, live: set<nat>, size: map<nat, nat>, ptr: map<nat, nat>, base: nat,
               p: nat, bp: nat, q: nat, up: bool, low: bool)
    requires free !! live && Tiled(tile, free + live, size) && Ring(free, base, ptr) && bp in live
    requires base in size && size[base] == 0 && (forall a :: a in free || a in live ==> a in size && base < a)
    requires Coalesced(free, size)
    requires (p in free || p == base) && p < bp && (forall z :: z in free ==> z <= p || bp < z) && p in ptr
    requires ptr[p] == q
    requires size[bp] > 0 && (up <==> bp + size[bp] == q) && (low <==> p + size[p] == bp) && (q in free || q == base)
    requires (up ==> q in ptr)
    ensures var free1, live1 := FreeAfter(free, bp, q, up, low), live - {bp};
            var size1, ptr1 := SizeAfter(size, p, bp, q, up, low), PtrAfter(ptr, p, bp, q, up, low);
            && free1 !! live1 && Tiled(TilesAfter(tile, size, p, bp, q, up, low), free1 + live1, size1)
            && Ring(free1, base, ptr1) && base in size1 && size1[base] == 0
                && (forall a :: a in free1 || a in live1 ==> a in size1 && base < a)
            && Coalesced(free1, size1) && (p in free1 || p == base)
            && (forall a :: a in live1 ==> size1[a] == size[a])
            && ((p in free1 && size1[p] >= size[bp]) || (p in ptr1 && ptr1[p] in free1 && size1[ptr1[p]] >= size[bp]))
  {
    hide Tiled, Ring, Follows;
    PlaceFacts(free, base, ptr, p);
    var free1, live1 := FreeAfter(free, bp, q, up, low), live - {bp};
    RingAfterFree(free, base, ptr, PtrAfter(ptr, p, bp, q, up, low), p, bp, q, up, low);
    CoalescedAfter(tile, free + live, size, free, base, p, bp, q, up, low, SizeAfter(size, p, bp, q, up, low), free1);
    TiledAfter(tile, free + live, size, p, bp, q, up, low);
    assert free1 + live1 == (free + live) - (if up then {q} else {}) - (if low then {bp} else {});
  }

  function SizeAfter(size: map<nat, nat>, p: nat, bp: nat, q: nat, up: bool, low: bool): map<nat, nat>
    requires bp in size && (up ==> q in size) && (low ==> p in size)
  {
    var size0 := if up then size[bp := size[bp] + size[q]] else size;
    if low then size0[p := size[p] + size0[bp]] else size0
  }

  function PtrAfter(ptr: map<nat, nat>, p: nat, bp: nat, q: nat, up: bool, low: bool): map<nat, nat>
    requires up ==> q in ptr
  {
    var ptr0 := ptr[bp := if up then ptr[q] else q];
    ptr0[p := if low then ptr0[bp] else bp]
  }

  function FreeAfter(free: set<nat>, bp: nat, q: nat, up: bool, low: bool): set<nat>
  {
    (if up then free - {q} else free) + (if low then {} else {bp})
  }

  lemma SizeOf(tile: map<nat, nat>, blocks: set<nat>, size: map<nat, nat>, a: nat)
    requires Tiled(tile, blocks, size) && a in blocks
    ensures a in size && size[a] > 0 && a in tile
  {
  }

  lemma PlaceFacts(free: set<nat>, base: nat, ptr: map<nat, nat>, p: nat)
    requires Ring(free, base, ptr) && (p in free || p == base)
    ensures p in ptr && Follows(free, base, p, ptr[p]) && (ptr[p] in free || ptr[p] == base)
    ensures ptr[p] in free ==> ptr[p] in ptr
  {
  }

  function TilesAfter(tile: map<nat, nat>, size: map<nat, nat>, p: nat, bp: nat, q: nat, up: bool,
                      low: bool): (r: map<nat, nat>)
    requires bp in size && (up ==> q in size)
    ensures r.Keys == tile.Keys
  {
    var tile1 := if up then Retiled(tile, q, q + size[q], bp) else tile;
    if low then Retiled(tile1, bp, bp + size[bp] + (if up then size[q] else 0), p) else tile1
  }

  lemma TiledAfter(tile: map<nat, nat>, blocks: set<nat>, size: map<nat, nat>, p: nat, bp: nat, q: nat, up: bool,
                   low: bool)
    requires Tiled(tile, blocks, size) && bp in blocks && bp in size && size[bp] > 0
    requires up ==> q in blocks && q in size && bp + size[bp] == q
    requires low ==> p in blocks && p in size && p + size[p] == bp && p < bp
    ensures var size0 := if up then size[bp := size[bp] + size[q]] else size;
            Tiled(TilesAfter(tile, size, p, bp, q, up, low),
                  blocks - (if up then {q} else {}) - (if low then {bp} else {}),
                      if low then size0[p := size[p] + size0[bp]] else size0)
  {
    hide Tiled;
    var tile1, blocks1, size1 := tile, blocks, size;
    if up {
      Merged(tile, blocks, size, bp, q);
      tile1, blocks1, size1 := Retiled(tile, q, q + size[q], bp), blocks - {q}, size[bp := size[bp] + size[q]];
    } else {
      assert blocks - {} == blocks;
    }
    if low {
      Merged(tile1, blocks1, size1, p, bp);
    } else {
      assert blocks1 - {} == blocks1;
    }
  }

  // ---- counting ----

  /** The units of a set of blocks. */
  ghost function Total(blocks: set<nat>, size: map<nat, nat>): nat
    requires forall a :: a in blocks ==> a in size
  {
    if blocks == {} then 0 else var a :| a in blocks; size[a] + Total(blocks - {a}, size)
  }

  lemma {:induction false} TotalSplit(blocks: set<nat>, size: map<nat, nat>, a: nat)
    requires (forall c :: c in blocks ==> c in size) && a in blocks
    ensures Total(blocks, size) == size[a] + Total(blocks - {a}, size)
    decreases |blocks|
  {
    var b :| b in blocks && Total(blocks, size) == size[b] + Total(blocks - {b}, size);
    if b != a {
      TotalSplit(blocks - {b}, size, a);
      TotalSplit(blocks - {a}, size, b);
      assert blocks - {b} - {a} == blocks - {a} - {b};
    }
  }

  lemma {:induction false} TotalUnion(free: set<nat>, live: set<nat>, size: map<nat, nat>)
    requires (forall c :: c in free || c in live ==> c in size) && free !! live
    ensures Total(free + live, size) == Total(free, size) + Total(live, size)
    decreases |free|
  {
    if free == {} {
      assert free + live == live;
    } else {
      var a :| a in free;
      TotalUnion(free - {a}, live, size);
      TotalSplit(free, size, a);
      TotalSplit(free + live, size, a);
      assert free + live - {a} == free - {a} + live;
    }
  }

  lemma {:induction false} Remove(keys: set<nat>, a: nat, n: nat) returns (rest: set<nat>)
    requires forall u :: a <= u < a + n ==> u in keys
    ensures |keys| == |rest| + n && forall u :: u in rest <==> u in keys && !(a <= u < a + n)
  {
    if n == 0 {
      rest := keys;
    } else {
      rest := Remove(keys, a, n - 1);
      assert a + n - 1 in rest;
      rest := rest - {a + n - 1};
    }
  }

  lemma {:induction false} CountTiles(tile: map<nat, nat>, blocks: set<nat>, size: map<nat, nat>)
    requires Tiled(tile, blocks, size) && forall a :: a in blocks ==> a in size
    ensures |tile.Keys| == Total(blocks, size)
    decreases |blocks|
  {
    hide Covers;
    if blocks == {} {
      UnitsInBlocks(tile, blocks, size);
      assert tile.Keys == {};
    } else {
      var a :| a in blocks;
      assert BlockOk(tile, size, a);
      CoversAll(tile, a, size[a]);
      var rest := Remove(tile.Keys, a, size[a]);
      var tile1 := map u | u in rest :: tile[u];
      Without(tile, tile1, blocks, size, a);
      CountTiles(tile1, blocks - {a}, size);
      assert tile1.Keys == rest;
      TotalSplit(blocks, size, a);
    }
  }

  lemma UnitsInBlocks(tile: map<nat, nat>, blocks: set<nat>, size: map<nat, nat>)
    requires Tiled(tile, blocks, size)
    ensures forall u :: u in tile ==> tile[u] in blocks
  {
  }

  lemma Without(tile: map<nat, nat>, tile1: map<nat, nat>, blocks: set<nat>, size: map<nat, nat>, a: nat)
    requires Tiled(tile, blocks, size) && a in blocks && a in size
    requires forall u :: u in tile1 <==> u in tile && !(a <= u < a + size[a])
    requires forall u :: u in tile1 ==> tile1[u] == tile[u]
    ensures Tiled(tile1, blocks - {a}, size)
  {
    assert BlockOk(tile, size, a);
    forall c | c in blocks - {a}
      ensures BlockOk(tile1, size, c)
    {
      assert BlockOk(tile, size, c);
      forall u | c <= u < c + size[c]
        ensures u in tile1 && tile1[u] == c
      {
        assert u in tile && tile[u] == c;
      }
    }
    forall u | u in tile1
      ensures UnitOk(tile1, blocks - {a}, size, u)
    {
      assert UnitOk(tile, blocks, size, u);
    }
  }

  /** The units obtained from the system are those of the free blocks and those of the live ones. */
  lemma Conserved(m: Allocator)
    requires m.Valid() && m.freep.Some?
    ensures |m.tile.Keys| == Total(m.free, m.size) + Total(m.live, m.size)
  {
    hide Tiled;
    CountTiles(m.tile, m.free + m.live, m.size);
    TotalUnion(m.free, m.live, m.size);
  }
}
