/** The buffer cache of kernel/bio.c: NBUF buffers on a doubly linked ring in
    least-recently-used order, with reference counts, in front of one disk. */
module BufferCache {
  import opened Common
  import opened Blocks
  import opened RedoLog

  const NBUF := 30

  /** The disk behind virtio_disk_rw(), which addresses it by block number alone.
      trace records the block writes in the order in which they reached the disk. */
  class Disk {
    var blocks: Image
    ghost var trace: seq<Write>

    constructor (image: Image)
      ensures blocks == image && trace == []
    {
      blocks := image;
      trace := [];
    }

    method Put(bn: nat, data: Block)
      requires bn < |blocks|
      modifies this
      ensures blocks == old(blocks)[bn := data]
      ensures trace == old(trace) + [Write(bn, data)]
    {
      blocks := blocks[bn := data];
      trace := trace + [Write(bn, data)];
    }
  }

  class Buf {
    var valid: bool
    var dev: nat
    var blockno: nat
    var locked: bool
    var refcnt: nat
    var prev: Buf?
    var next: Buf?
    var data: Block
    /** Who holds the references besides the lock's holder: bpin()s, and processes about to lock. */
    ghost var pins: nat
    ghost var waiters: nat

    constructor ()
      ensures !valid && dev == 0 && blockno == 0 && !locked && refcnt == 0 && pins == 0 && waiters == 0
    {
      valid, dev, blockno, locked, refcnt, pins, waiters := false, 0, 0, false, 0, 0, 0;
      prev, next, data := null, null, ZeroBlock();
    }
  }

  class Cache {
    const disk: Disk
    const head: Buf
    const dev: nat

    /** The ring: head, then the buffers from most to least recently used. */
    ghost var nodes: seq<Buf>
    ghost const all: set<Buf>
    /** What clients see: the disk overlaid with logged writes that are still in memory. */
    ghost var view: Image

    /** prev and next form one cycle through the given buffers, in that order. */
    static ghost predicate Ring(ns: seq<Buf>)
      reads ns`prev, ns`next
    {
      && |ns| > 0 && Distinct(ns)
      && (forall i {:trigger ns[i].next} :: 0 <= i < |ns| - 1 ==> ns[i].next == ns[i + 1])
      && ns[|ns| - 1].next == ns[0]
      && (forall i {:trigger ns[i].prev} :: 1 <= i < |ns| ==> ns[i].prev == ns[i - 1])
      && ns[0].prev == ns[|ns| - 1]
    }

    ghost predicate InAll(ns: seq<Buf>)
    {
      forall i :: 0 <= i < |ns| ==> ns[i] == head || ns[i] in all
    }

    /** No block has two buffers, every reference is accounted for, valid data that nobody holds
        is what clients should see, and a block whose latest contents are not on disk is pinned. */
    ghost predicate Contents()
      reads this`view, disk, all`valid, all`dev, all`blockno, all`locked, all`refcnt, all`data
      reads all`pins, all`waiters
    {
      && |view| == |disk.blocks| && dev != 0
      && (forall b :: b in all ==>
            && b.refcnt == b.pins + b.waiters + (if b.locked then 1 else 0)
            && (b.dev == 0 ==> !b.valid && b.refcnt == 0)
            && (b.dev != 0 ==> b.dev == dev && b.blockno < |view|)
            && (b.dev != 0 && b.valid && !b.locked ==> b.data == view[b.blockno])
            && (b.locked || b.pins > 0 ==> b.valid))
      && (forall b, c :: b in all && c in all && b.dev == c.dev == dev && b.blockno == c.blockno ==> b == c)
      && (forall bn {:trigger disk.blocks[bn]} :: 0 <= bn < |view| && view[bn] != disk.blocks[bn] ==>
            exists b :: b in all && b.pins > 0 && b.blockno == bn)
    }

    /** b holds block bn. */
    ghost predicate Caches(b: Buf, bn: nat)
      reads b
    {
      b in all && b.dev == dev && b.blockno == bn
    }

    /** The ring runs through head and all the buffers. */
    ghost predicate Linked()
      reads this`nodes, nodes`prev, nodes`next
    {
      && head !in all && |all| == NBUF
      && |nodes| == NBUF + 1 && nodes[0] == head
      && (forall i :: 1 <= i < |nodes| ==> nodes[i] in all)
      && (forall b :: b in all ==> b in nodes)
      && Ring(nodes)
    }

    ghost predicate Valid()
      reads this, disk, head, all, nodes
    {
      Linked() && Contents()
    }

    static ghost predicate Unused(b: Buf)
      reads b
    {
      !b.valid && b.dev == 0 && !b.locked && b.refcnt == 0 && b.pins == 0 && b.waiters == 0
    }

    /** binit() over the zeroed static bcache.head and bcache.buf: nothing is cached. */
    constructor (disk: Disk, dev: nat, head: Buf, bufs: seq<Buf>)
      requires dev != 0 && |bufs| == NBUF && Distinct(bufs) && head !in bufs
      requires forall b :: b in bufs ==> Unused(b)
      modifies head, bufs
      ensures Valid() && this.disk == disk && this.dev == dev && this.head == head
      ensures view == disk.blocks && forall b :: b in all <==> b in bufs
      ensures forall b :: b in bufs ==> b.refcnt == 0
    {
      hide Linked, Distinct;
      CountDistinct(bufs);
      this.disk, this.dev, this.head := disk, dev, head;
      all := set b | b in bufs;
      nodes := [head];
      view := disk.blocks;
      new;
      head.prev, head.next := head, head;
      LinkAll(bufs);
    }

    method LinkAll(bufs: seq<Buf>)
      requires nodes == [head] && Ring(nodes) && Distinct(bufs)
      requires |bufs| == NBUF == |all| && head !in all && forall b :: b in all <==> b in bufs
      modifies this`nodes, head`prev, head`next, all`prev, all`next
      ensures Linked()
    {
      var i := 0;
      while i < |bufs|
        invariant 0 <= i <= |bufs| && |nodes| == i + 1 && nodes[0] == head
        invariant Ring(nodes) && InAll(nodes)
        invariant forall k :: 1 <= k <= i ==> nodes[k] == bufs[i - k]
      {
        InsertFront(bufs[i]);
        i := i + 1;
      }
      forall k | 0 <= k < |bufs|
        ensures bufs[k] in nodes
      {
        assert nodes[|bufs| - k] == bufs[k];
      }
    }

    /** Link b in right after head. */
    method InsertFront(b: Buf)
      requires |nodes| > 0 && nodes[0] == head && Ring(nodes) && InAll(nodes)
      requires b in all && forall k :: 0 <= k < |nodes| ==> nodes[k] != b
      modifies this`nodes, head`prev, head`next, all`prev, all`next
      ensures nodes == [head, b] + old(nodes)[1..] && Ring(nodes) && InAll(nodes)
    {
      b.next := head.next;
      b.prev := head;
      head.next.prev := b;
      head.next := b;
      nodes := [head, b] + nodes[1..];
    }

    /** Unlink b; the other buffers keep their order. */
    method Unlink(b: Buf, ghost k: nat)
      requires 1 <= k < |nodes| && nodes[k] == b && Ring(nodes) && InAll(nodes)
      modifies this`nodes, head`prev, head`next, all`prev, all`next
      ensures nodes == old(nodes)[..k] + old(nodes)[k + 1..] && Ring(nodes) && InAll(nodes)
    {
      b.next.prev := b.prev;
      b.prev.next := b.next;
      nodes := nodes[..k] + nodes[k + 1..];
    }

    /** Some process has b's sleep-lock. */
    ghost predicate Holds(b: Buf)
      reads this, b
    {
      b in all && b.dev == dev && b.locked
    }

    ghost predicate IsCached(bn: nat)
      reads all
    {
      exists x :: x in all && Caches(x, bn)
    }

    ghost predicate CanGet(bn: nat)
      reads all
    {
      IsCached(bn) || exists x :: x in all && x.refcnt == 0
    }

    /** The buffers used longer ago than b. */
    ghost function Behind(b: Buf): set<Buf>
      reads this
    {
      set i, j | 0 <= i < j < |nodes| && nodes[i] == b :: nodes[j]
    }

    /** bget()'s first loop: from most to least recently used, look for the block. */
    method Lookup(blockno: nat) returns (b: Buf?)
      requires Valid() && blockno < |view|
      ensures if b == null then !IsCached(blockno) else Caches(b, blockno)
    {
      var p := head.next;
      ghost var k := 1;
      while p != head
        invariant 1 <= k <= |nodes| && p == (if k < |nodes| then nodes[k] else head)
        invariant forall j :: 1 <= j < k ==> !Caches(nodes[j], blockno)
        decreases |nodes| - k
      {
        if p.dev == dev && p.blockno == blockno {
          return p;
        }
        p := p.next;
        k := k + 1;
      }
      b := null;
    }

    /** bget()'s second loop: from least to most recently used, look for an unused buffer. */
    method FindUnused() returns (b: Buf?)
      requires Valid()
      ensures b == null ==> forall x :: x in all ==> x.refcnt > 0
      ensures b != null ==> b in all && b.refcnt == 0 && forall x :: x in Behind(b) ==> x.refcnt > 0
    {
      var p := head.prev;
      ghost var k := |nodes| - 1;
      while p != head
        invariant 0 <= k < |nodes| && p == nodes[k]
        invariant forall j :: k < j < |nodes| ==> nodes[j].refcnt > 0
        decreases k
      {
        if p.refcnt == 0 {
          return p;
        }
        p := p.prev;
        k := k - 1;
      }
      b := null;
    }

    /** bget() up to its sleep-lock: the cached buffer of the block, else the least recently used
        buffer without references, taken over for the block. Null is the "no buffers" panic. */
    method BGet(blockno: nat) returns (b: Buf?)
      requires Valid() && blockno < |view|
      modifies all`dev, all`blockno, all`valid, all`refcnt, all`waiters
      ensures Valid() && (b != null <==> old(CanGet(blockno)))
      ensures b != null ==> Caches(b, blockno) && b.waiters == old(b.waiters) + 1
      ensures b != null && old(IsCached(blockno)) ==> old(Caches(b, blockno)) && b.valid == old(b.valid)
      ensures b != null && !old(IsCached(blockno)) ==>
                old(b.refcnt) == 0 && !b.valid && forall x :: x in Behind(b) ==> old(x.refcnt) > 0
      ensures forall x :: x in all && x != b ==> unchanged(x`dev, x`blockno, x`valid, x`refcnt, x`waiters)
    {
      hide Ring, Linked, Contents;
      b := Lookup(blockno);
      if b != null {
        Ref(b);
        return;
      }
      b := FindUnused();
      if b != null {
        Recycle(b, blockno);
      }
    }

    method Ref(b: Buf)
      requires Contents() && b in all && b.dev == dev
      modifies b`refcnt, b`waiters
      ensures Contents() && b.waiters == old(b.waiters) + 1
    {
      b.refcnt, b.waiters := b.refcnt + 1, b.waiters + 1;
    }

    method Recycle(b: Buf, blockno: nat)
      requires Contents() && b in all && b.refcnt == 0 && blockno < |view|
      requires !IsCached(blockno)
      modifies b`dev, b`blockno, b`valid, b`refcnt, b`waiters
      ensures Contents() && Caches(b, blockno) && !b.valid && b.waiters == old(b.waiters) + 1
    {
      b.dev := dev;
      b.blockno := blockno;
      b.valid := false;
      b.refcnt, b.waiters := 1, 1;
    }

    /** acquiresleep() by a process that bget() gave b to, and the disk read if b is not valid yet. */
    method Acquire(b: Buf)
      requires Valid() && b in all && b.dev == dev && b.waiters > 0 && !b.locked
      modifies b`locked, b`waiters, b`valid, b`data
      ensures Valid() && Holds(b) && b.data == view[b.blockno]
      ensures b.waiters == old(b.waiters) - 1
    {
      hide Ring, Linked;
      b.locked, b.waiters := true, b.waiters - 1;
      if !b.valid {
        b.data := disk.blocks[b.blockno];
        b.valid := true;
      }
    }

    /** bread(): the block's buffer, locked, holding the block as clients should see it. Null is the "no
        buffers" panic. */
    method BRead(blockno: nat) returns (b: Buf?)
      requires Valid() && blockno < |view|
      requires forall x :: x in all && Caches(x, blockno) ==> !x.locked
      modifies all`dev, all`blockno, all`valid, all`refcnt, all`waiters, all`locked, all`data
      ensures Valid() && (b != null <==> old(CanGet(blockno)))
      ensures b != null ==> Caches(b, blockno) && Holds(b) && b.data == view[blockno]
      ensures b != null ==> !old(b.locked) && b.waiters == old(b.waiters)
      ensures b != null ==> old(Caches(b, blockno)) || (old(b.refcnt) == 0 && b.waiters == 0)
      ensures b != null && b.pins > 0 ==> b.dev == old(b.dev) && b.blockno == old(b.blockno)
      ensures forall x :: x in all && x != b ==>
                unchanged(x`dev, x`blockno, x`valid, x`refcnt, x`waiters, x`locked, x`data)
    {
      hide Ring, Linked;
      b := BGet(blockno);
      if b != null {
        Acquire(b);
      }
    }

    /** The holder of b's lock stores into b->data. */
    method Store(b: Buf, data: Block)
      requires Valid() && Holds(b)
      modifies b`data
      ensures Valid() && b.data == data
    {
      hide Ring, Linked;
      b.data := data;
    }

    /** bwrite(): from now on the disk holds b's data. */
    method BWrite(b: Buf)
      requires Valid() && Holds(b)
      modifies disk, this`view
      ensures Valid()
      ensures disk.blocks == old(disk.blocks)[b.blockno := b.data]
      ensures disk.trace == old(disk.trace) + [Write(b.blockno, b.data)]
      ensures view == old(view)[b.blockno := b.data] && view[b.blockno] == disk.blocks[b.blockno]
    {
      hide Ring, Linked;
      disk.Put(b.blockno, b.data);
      view := view[b.blockno := b.data];
    }

    /** The part of log_write() that concerns the cache: a pinned buffer's data becomes the
        block's contents, though not yet the disk's. */
    ghost method Publish(b: Buf)
      requires Valid() && Holds(b) && b.pins > 0
      modifies this`view
      ensures Valid() && view == old(view)[b.blockno := b.data]
    {
      hide Ring, Linked;
      view := view[b.blockno := b.data];
    }

    /** brelse(), by a client that has logged or written what it changed. */
    method BRelse(b: Buf)
      requires Valid() && Holds(b) && b.data == view[b.blockno]
      modifies this`nodes, head`prev, head`next, all`prev, all`next, b`locked, b`refcnt
      ensures Valid() && !b.locked && b.refcnt == old(b.refcnt) - 1
      ensures if b.refcnt > 0 then nodes == old(nodes) else MovedToFront(old(nodes), nodes, b)
    {
      hide Ring, Linked, Contents, MovedToFront;
      Unlock(b);
      if b.refcnt == 0 {
        MoveToFront(b);
      }
    }

    method MoveToFront(b: Buf)
      requires Linked() && b in all
      modifies this`nodes, head`prev, head`next, all`prev, all`next
      ensures Linked() && nodes[1] == b && MovedToFront(old(nodes), nodes, b)
    {
      ghost var k: nat :| 1 <= k < |nodes| && nodes[k] == b;
      ghost var was := nodes;
      Unlink(b, k);
      InsertFront(b);
      assert nodes == [head, b] + was[1..k] + was[k + 1..];
      forall x | x in all
        ensures x in nodes
      {
        assert x in was;
      }
    }

    /** new is old with b moved to the place behind head, everything else in the old order. */
    static ghost predicate MovedToFront(was: seq<Buf>, now: seq<Buf>, b: Buf)
    {
      exists k :: 1 <= k < |was| && was[k] == b && now == [was[0], b] + was[1..k] + was[k + 1..]
    }

    method Unlock(b: Buf)
      requires Contents() && Holds(b) && b.data == view[b.blockno]
      modifies b`locked, b`refcnt
      ensures Contents() && !b.locked && b.refcnt == old(b.refcnt) - 1
    {
      b.locked := false;
      b.refcnt := b.refcnt - 1;
    }

    /** bpin() */
    method BPin(b: Buf)
      requires Valid() && Holds(b)
      modifies b`refcnt, b`pins
      ensures Valid() && b.pins == old(b.pins) + 1 && b.refcnt == old(b.refcnt) + 1
    {
      hide Ring, Linked;
      b.refcnt, b.pins := b.refcnt + 1, b.pins + 1;
    }

    /** bunpin(), by a client that has put the block on disk. */
    method BUnpin(b: Buf)
      requires Valid() && b in all && b.pins > 0
      requires b.pins > 1 || view[b.blockno] == disk.blocks[b.blockno]
      modifies b`refcnt, b`pins
      ensures Valid() && b.pins == old(b.pins) - 1 && b.refcnt == old(b.refcnt) - 1
    {
      hide Ring, Linked;
      b.refcnt, b.pins := b.refcnt - 1, b.pins - 1;
    }

    /** While fewer than NBUF buffers are in use, bget() does not panic. */
    lemma RoomForBlock(used: set<Buf>, bn: nat)
      requires Valid() && |used| < NBUF
      requires forall x :: x in all && x.refcnt > 0 ==> x in used
      ensures CanGet(bn)
    {
      if forall x :: x in all ==> x.refcnt > 0 {
        SubsetSize(all, used);
      }
    }

    /** The buffers that some process holds or waits for are those in s. */
    ghost predicate InUse(s: set<Buf>)
      reads all`locked, all`waiters
    {
      forall x :: x in all ==> (x.locked || x.waiters > 0 <==> x in s)
    }

    /** The buffers with references. */
    ghost function Referenced(): set<Buf>
      reads all
    {
      set x | x in all && x.refcnt > 0
    }

    /** bget() finds a buffer if and only if the block is cached or fewer than NBUF buffers are referenced. */
    lemma CanGetCount(bn: nat)
      requires Valid()
      ensures CanGet(bn) <==> IsCached(bn) || |Referenced()| < NBUF
    {
      SubsetSize(Referenced(), all);
      if Referenced() == all {
        assert forall x :: x in all ==> x in Referenced();
      } else {
        assert !(all <= Referenced());
        var x :| x in all && x !in Referenced();
      }
    }

    lemma Unique(b: Buf, c: Buf, bn: nat)
      requires Valid() && Caches(b, bn) && Caches(c, bn)
      ensures b == c
    {
    }

    /** bread() of a block of which no other process has the buffer. */
    method BReadFree(blockno: nat, ghost others: set<Buf>) returns (b: Buf?)
      requires Valid() && InUse(others) && blockno < |view| && forall x :: x in others ==> !Caches(x, blockno)
      modifies all`dev, all`blockno, all`valid, all`refcnt, all`waiters, all`locked, all`data
      ensures Valid() && (b != null <==> old(CanGet(blockno)))
      ensures b != null ==> Caches(b, blockno) && Holds(b) && b.data == view[blockno] && b.waiters == 0
      ensures b != null ==> b !in others && InUse(others + {b}) && (old(Caches(b, blockno)) || old(b.refcnt) == 0)
      ensures forall x :: x in all && (x.pins > 0 || x in others) ==> x.dev == old(x.dev) && x.blockno == old(x.blockno)
      ensures forall x :: x in all && x != b ==>
                unchanged(x`dev, x`blockno, x`valid, x`refcnt, x`waiters, x`locked, x`data)
    {
      hide Ring, Linked, Behind, CanGet;
      b := BRead(blockno);
    }

    /** Two bread()s in a row, as in write_log() and install_trans(), while other processes have buffers of other
        blocks. Null is the "no buffers" panic of the first. */
    method BReadPair(bn1: nat, bn2: nat, ghost others: set<Buf>) returns (b1: Buf?, b2: Buf?)
      requires Valid() && InUse(others) && bn1 < |view| && bn2 < |view| && bn1 != bn2
      requires forall x :: x in others ==> !Caches(x, bn1) && !Caches(x, bn2)
      requires CanGet(bn1) ==> CanGetPair(bn1, bn2)
      modifies all`dev, all`blockno, all`valid, all`refcnt, all`waiters, all`locked, all`data
      ensures Valid() && (b1 != null <==> old(CanGet(bn1)))
      ensures b1 == null ==>
                forall x :: x in all ==> unchanged(x`dev, x`blockno, x`valid, x`refcnt, x`waiters, x`locked, x`data)
      ensures b1 != null ==> b2 != null && b1 != b2 && InUse(others + {b1, b2}) && b1 !in others && b2 !in others
      ensures b1 != null ==> Caches(b1, bn1) && Holds(b1) && b1.data == view[bn1] && b1.waiters == 0
      ensures b1 != null ==> Caches(b2, bn2) && Holds(b2) && b2.data == view[bn2] && b2.waiters == 0
      ensures forall x :: x in all && (x.pins > 0 || x in others) ==> x.dev == old(x.dev) && x.blockno == old(x.blockno)
      ensures b1 != null ==> forall x :: x in all && x.pins > 0 && old(Caches(x, bn2)) ==> x == b2
    {
      hide Ring, Linked, Contents, Behind, InUse;
      b1 := BReadFree(bn1, others);
      b2 := null;
      if b1 == null {
        return;
      }
      b2 := BReadFree(bn2, others + {b1});
      assert others + {b1} + {b2} == others + {b1, b2};
      forall x | x in all && x.pins > 0 && old(Caches(x, bn2))
        ensures x == b2
      {
        Unique(x, b2, bn2);
      }
    }

    /** brelse() of a buffer that no other process waits for. */
    method BRelseFree(b: Buf, ghost others: set<Buf>)
      requires Valid() && Holds(b) && b !in others && InUse(others + {b}) && b.waiters == 0 && b.data == view[b.blockno]
      modifies this`nodes, head`prev, head`next, all`prev, all`next, b`locked, b`refcnt
      ensures Valid() && InUse(others)
    {
      hide Ring, Linked, Contents, MovedToFront;
      BRelse(b);
    }

    /** The two brelse()s that end a turn of those loops. */
    method BRelsePair(b1: Buf, b2: Buf, ghost others: set<Buf>)
      requires Valid() && Holds(b1) && Holds(b2) && b1 != b2 && InUse(others + {b1, b2})
      requires b1 !in others && b2 !in others && b1.waiters == b2.waiters == 0
      requires b1.data == view[b1.blockno] && b2.data == view[b2.blockno]
      modifies this`nodes, head`prev, head`next, all`prev, all`next
      modifies b1`locked, b1`refcnt, b2`locked, b2`refcnt
      ensures Valid() && InUse(others)
    {
      hide Ring, Linked, Contents, MovedToFront, InUse;
      assert others + {b1, b2} == others + {b2} + {b1};
      BRelseFree(b1, others + {b2});
      BRelseFree(b2, others);
    }

    /** Room for two blocks at a time. */
    ghost predicate CanGetPair(bn1: nat, bn2: nat)
      reads all
    {
      || (CanGet(bn1) && exists x :: x in all && x.pins > 0 && Caches(x, bn2))
      || (exists x, y :: x in all && y in all && x != y && x.refcnt == y.refcnt == 0)
    }

    lemma PairRoom(bn1: nat, bn2: nat)
      requires CanGetPair(bn1, bn2)
      ensures CanGet(bn1)
    {
    }

    /** One turn of write_log()'s loop: copy a cached block into a log block, while other processes have buffers of
        other blocks. The result is false when the kernel panics for want of a buffer. */
    method CopyToLog(src: nat, dst: nat, ghost others: set<Buf>) returns (ok: bool)
      requires Valid() && InUse(others) && src < |view| && dst < |view| && src != dst
      requires forall x :: x in others ==> !Caches(x, src) && !Caches(x, dst)
      requires CanGet(dst) ==> CanGetPair(dst, src)
      modifies this, disk, head`prev, head`next, all`prev, all`next
      modifies all`dev, all`blockno, all`valid, all`refcnt, all`waiters, all`locked, all`data
      ensures Valid() && InUse(others) && (ok <==> old(CanGet(dst)))
      ensures !ok ==> disk.trace == old(disk.trace) && disk.blocks == old(disk.blocks) && view == old(view)
      ensures ok ==> disk.trace == old(disk.trace) + [Write(dst, old(view)[src])]
      ensures ok ==> disk.blocks == old(disk.blocks)[dst := old(view)[src]]
      ensures ok ==> view == old(view)[dst := old(view)[src]]
      ensures forall x :: x in all && (x.pins > 0 || x in others) ==> x.dev == old(x.dev) && x.blockno == old(x.blockno)
    {
      hide Ring, Linked, Contents, MovedToFront, CanGetPair, CanGet;
      var to, from := BReadPair(dst, src, others);
      if to == null {
        return false;
      }
      ok := true;
      Store(to, from.data);
      BWrite(to);
      BRelsePair(from, to, others);
    }

    /** One turn of install_trans()'s loop: copy a log block to its home, and drop the home
        buffer's pin unless recovering. */
    method Install(src: nat, dst: nat, recovering: bool, ghost others: set<Buf>)
      requires Valid() && InUse(others) && src < |view| && dst < |view| && src != dst && CanGetPair(src, dst)
      requires forall x :: x in others ==> !Caches(x, src) && !Caches(x, dst)
      requires !recovering ==> exists x :: x in all && x.pins == 1 && Caches(x, dst)
      modifies this, disk, head`prev, head`next, all`prev, all`next, all`pins
      modifies all`dev, all`blockno, all`valid, all`refcnt, all`waiters, all`locked, all`data
      ensures Valid() && InUse(others)
      ensures disk.trace == old(disk.trace) + [Write(dst, old(view)[src])]
      ensures disk.blocks == old(disk.blocks)[dst := old(view)[src]]
      ensures view == old(view)[dst := old(view)[src]]
      ensures forall x :: x in all ==>
                x.pins == if !recovering && old(x.pins > 0 && Caches(x, dst)) then old(x.pins) - 1 else old(x.pins)
      ensures forall x :: x in all && (x.pins > 0 || x in others) ==> x.dev == old(x.dev) && x.blockno == old(x.blockno)
    {
      hide Ring, Linked, Contents, MovedToFront, CanGetPair, CanGet;
      PairRoom(src, dst);
      var lbuf, dbuf := BReadPair(src, dst, others);
      Store(dbuf, lbuf.data);
      BWrite(dbuf);
      if !recovering {
        BUnpin(dbuf);
      }
      BRelsePair(lbuf, dbuf, others);
    }

    /** Cache transparency: no block has two buffers; a buffer nobody refers to, if valid, is a copy of the
        disk; an unlocked valid buffer shows what clients should see; and blocks differ from disk only while
        pinned. */
    lemma Transparent(b: Buf)
      requires Valid() && b in all && b.valid && !b.locked
      ensures forall c :: c in all && c.dev == b.dev && c.blockno == b.blockno ==> c == b
      ensures b.data == view[b.blockno]
      ensures b.refcnt == 0 ==> b.data == disk.blocks[b.blockno]
      ensures b.data != disk.blocks[b.blockno] ==> b.pins > 0
    {
    }
  }
}
