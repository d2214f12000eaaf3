/** The virtio disk driver (kernel/virtio_disk.c) against a device that completes requests in any order.
    Methods of the driver run under vdisk_lock, so each is one step; the device's methods are steps too,
    and any sequence of steps is a run. Indices of the rings are 16 bits wide. */
module Virtio {
  import opened Common
  import opened Blocks

  const NUM := 8
  const WRAP := 65536

  /** What a descriptor points to: a command header, a buffer's data, a status byte. */
  datatype Addr = Nothing | Op(i: nat) | Data(b: nat) | Status(i: nat)

  /** struct virtq_desc; the two flags used are VRING_DESC_F_NEXT and VRING_DESC_F_WRITE. */
  datatype Desc = Desc(addr: Addr, len: nat, more: bool, write: bool, next: nat)

  const EMPTY := Desc(Nothing, 0, false, false, 0)

  /** struct virtio_blk_req: the type is VIRTIO_BLK_T_OUT when write. */
  datatype Command = Command(write: bool, sector: nat)

  datatype Info = Info(b: Option<nat>, status: nat)

  /** The parts of struct buf that the driver uses; busy is the field disk. */
  datatype Buf = Buf(blockno: nat, data: Block, busy: bool)

  /** Where a request is: in the available ring, with the device, in the used ring, or reported. */
  datatype Phase = Posted | Taken | Done | Notified

  /** A request in flight, known by the first descriptor of its chain: the other two descriptors, its
      buffer, its place in the ring it is in, and the transfer that carried it out. */
  datatype Request = Request(mid: nat, tail: nat, b: nat, write: bool, data: Block, phase: Phase, pos: nat, since: nat,
                             at: nat)

  /** A transfer between a buffer and a disk block. */
  datatype Transfer = Transfer(b: nat, write: bool, blockno: nat, data: Block)

  /** (uint64)(b->blockno * (BSIZE / 512)) */
  function Sector(blockno: nat): nat { blockno * 2 % 0x1_0000_0000 }

  predicate Lowest(free: seq<bool>, i: nat)
  {
    i < |free| && free[i] && forall k :: 0 <= k < i ==> !free[k]
  }

  function CountFree(free: seq<bool>): nat
  {
    if free == [] then 0 else CountFree(free[1..]) + if free[0] then 1 else 0
  }

  // ---- chains ----

  type Requests = seq<Option<Request>>

  predicate In(h: nat, r: Request, i: nat) { i == h || i == r.mid || i == r.tail }

  /** The chain that starts at h: three distinct descriptors, all marked as its own. */
  predicate ChainOk(own: seq<Option<nat>>, h: nat, r: Request)
  {
    && |own| == NUM && h < NUM && r.mid < NUM && r.tail < NUM && h != r.mid && h != r.tail && r.mid != r.tail
    && own[h] == Some(h) && own[r.mid] == Some(h) && own[r.tail] == Some(h)
  }

  /** Descriptors are free or part of exactly one chain. */
  predicate Partition(act: Requests, own: seq<Option<nat>>, free: seq<bool>)
  {
    && |act| == |own| == |free| == NUM
    && (forall h :: 0 <= h < NUM && act[h].Some? ==> ChainOk(own, h, act[h].value))
    && (forall i :: 0 <= i < NUM && own[i].Some? ==>
        own[i].value < NUM && act[own[i].value].Some? && In(own[i].value, act[own[i].value].value, i))
    && (forall i :: 0 <= i < NUM ==> (free[i] <==> own[i].None?))
  }

  /** Eight descriptors are not enough for three requests. */
  lemma AtMostTwo(act: Requests, own: seq<Option<nat>>, free: seq<bool>, a: nat, b: nat, c: nat)
    requires Partition(act, own, free) && a < NUM && b < NUM && c < NUM && act[a].Some? && act[b].Some? && act[c].Some?
    ensures a == b || a == c || b == c
  {
    if a != b && a != c && b != c {
      var p, q, r := act[a].value, act[b].value, act[c].value;
      assert ChainOk(own, a, p) && ChainOk(own, b, q) && ChainOk(own, c, r);
      var s := {a, p.mid, p.tail};
      var t := {b, q.mid, q.tail};
      var u := {c, r.mid, r.tail};
      assert |s| == 3 && |t| == 3 && |u| == 3;
      assert s !! t && s !! u && t !! u;
      assert |s + t| == 6 && |s + t + u| == 9;
      BoundedSet(s + t + u, NUM);
    }
  }

  // ---- descriptors ----

  lemma {:induction false} CountLess(free: seq<bool>, i: nat)
    requires i < |free| && free[i]
    ensures CountFree(free) == CountFree(free[i := false]) + 1
  {
    if i > 0 {
      CountLess(free[1..], i - 1);
      assert free[i := false][1..] == free[1..][i - 1 := false];
    } else {
      assert free[i := false][1..] == free[1..];
    }
  }

  lemma {:induction false} CountNone(free: seq<bool>)
    requires forall k :: 0 <= k < |free| ==> !free[k]
    ensures CountFree(free) == 0
  {
    if free != [] {
      CountNone(free[1..]);
    }
  }

  class Descriptors {
    var desc: seq<Desc>
    var free: seq<bool>

    predicate Valid()
      reads this
    {
      |desc| == |free| == NUM && forall i :: 0 <= i < NUM && free[i] ==> desc[i] == EMPTY
    }

    constructor ()
      ensures Valid() && desc == seq(NUM, (i: nat) => EMPTY) && free == seq(NUM, (i: nat) => true)
    {
      desc := seq(NUM, (i: nat) => EMPTY);
      free := seq(NUM, (i: nat) => true);
    }

    /** alloc_desc(): the lowest free descriptor, or -1. */
    method AllocDesc() returns (r: int)
      requires |free| == NUM
      modifies this`free
      ensures r == -1 || 0 <= r
      ensures r == -1 ==> free == old(free) && CountFree(free) == 0
      ensures r >= 0 ==>
                Lowest(old(free), r) && free == old(free)[r := false] && CountFree(old(free)) == CountFree(free) + 1
    {
      var i := 0;
      while i < NUM
        invariant 0 <= i <= NUM && forall k :: 0 <= k < i ==> !free[k]
      {
        if free[i] {
          CountLess(free, i);
          free := free[i := false];
          return i;
        }
        i := i + 1;
      }
      CountNone(free);
      r := -1;
    }

    /** free_desc(), which undoes alloc_desc(); its panics are ruled out by what it requires. */
    method FreeDesc(i: nat)
      requires |desc| == |free| == NUM && i < NUM && !free[i]
      modifies this
      ensures desc == old(desc)[i := EMPTY] && free == old(free)[i := true]
      ensures free[i := false] == old(free) && CountFree(free) == CountFree(old(free)) + 1
      ensures old(Valid()) ==> Valid()
    {
      CountLess(free[i := true], i);
      assert free[i := true][i := false] == free;
      desc := desc[i := EMPTY];
      free := free[i := true];
    }

    /** free_chain() of three descriptors. */
    method FreeChain(h: nat, ghost mid: nat, ghost tail: nat)
      requires |desc| == |free| == NUM && h < NUM && mid < NUM && tail < NUM && h != mid && h != tail && mid != tail
      requires !free[h] && !free[mid] && !free[tail]
      requires desc[h].more && desc[h].next == mid && desc[mid].more && desc[mid].next == tail && !desc[tail].more
      modifies this
      ensures desc == old(desc)[h := EMPTY][mid := EMPTY][tail := EMPTY]
      ensures free == old(free)[h := true][mid := true][tail := true]
    {
      var i := h;
      ghost var turn := 0;
      while true
        invariant 0 <= turn <= 2 && |desc| == |free| == NUM
        invariant i == if turn == 0 then h else if turn == 1 then mid else tail
        invariant desc == if turn == 0 then old(desc) else if turn == 1 then old(desc)[h := EMPTY]
                  else old(desc)[h := EMPTY][mid := EMPTY]
        invariant free == if turn == 0 then old(free) else if turn == 1 then old(free)[h := true]
                  else old(free)[h := true][mid := true]
        decreases 3 - turn
      {
        var more, nxt := desc[i].more, desc[i].next;
        FreeDesc(i);
        if more {
          i := nxt;
          turn := turn + 1;
        } else {
          break;
        }
      }
    }

    /** alloc3_desc(): three distinct free descriptors, or none taken when there are fewer than three. */
    method Alloc3Desc() returns (ok: bool, idx: seq<nat>)
      requires Valid()
      modifies this
      ensures Valid() && desc == old(desc) && (ok <==> old(CountFree(free)) >= 3)
      ensures !ok ==> free == old(free)
      ensures ok ==>
                && |idx| == 3 && idx[0] < idx[1] < idx[2] < NUM && (forall i :: 0 <= i < 3 ==> old(free)[idx[i]])
                && free == old(free)[idx[0] := false][idx[1] := false][idx[2] := false]
    {
      ghost var free0 := free;
      idx := [];
      var i := 0;
      while i < 3
        invariant 0 <= i <= 3 && |idx| == i && |free| == NUM && desc == old(desc)
        invariant forall k :: 0 <= k < i ==> idx[k] < NUM && free0[idx[k]]
        invariant forall k, l :: 0 <= k < l < i ==> idx[k] < idx[l]
        invariant forall k :: 0 <= k < NUM ==> (free[k] <==> free0[k] && k !in idx)
        invariant i > 0 ==> forall k :: 0 <= k <= idx[i - 1] ==> !free[k]
        invariant CountFree(free0) == CountFree(free) + i
      {
        ghost var before := free;
        var d := AllocDesc();
        if d < 0 {
          Undo(idx, free0);
          return false, [];
        }
        idx := idx + [d];
        i := i + 1;
      }
      assert free == free0[idx[0] := false][idx[1] := false][idx[2] := false];
      ok := true;
    }

    /** Give back what alloc3_desc() has taken. */
    method Undo(idx: seq<nat>, ghost free0: seq<bool>)
      requires |desc| == |free| == |free0| == NUM
      requires forall i :: 0 <= i < NUM && free0[i] ==> desc[i] == EMPTY
      requires forall k :: 0 <= k < |idx| ==> idx[k] < NUM && free0[idx[k]]
      requires forall k, l :: 0 <= k < l < |idx| ==> idx[k] != idx[l]
      requires forall k :: 0 <= k < NUM ==> (free[k] <==> free0[k] && k !in idx)
      modifies this
      ensures desc == old(desc) && free == free0
    {
      var j := 0;
      while j < |idx|
        invariant 0 <= j <= |idx| && |desc| == |free| == NUM && desc == old(desc)
        invariant forall k :: 0 <= k < NUM ==> (free[k] <==> free0[k] && k !in idx[j..])
      {
        assert idx[j] in idx[j..];
        assert idx[j..] == [idx[j]] + idx[j + 1..];
        FreeDesc(idx[j]);
        assert desc == old(desc);
        j := j + 1;
      }
      assert free == free0;
    }
  }

  // ---- requests in flight ----

  /** The descriptors of a request say what the request is. */
  ghost predicate Described(desc: seq<Desc>, ops: seq<Command>, bufs: seq<Buf>, h: nat, r: Request)
  {
    && |desc| == |ops| == NUM && h < NUM && r.mid < NUM && r.tail < NUM && r.b < |bufs|
    && desc[h] == Desc(Op(h), 16, true, false, r.mid)
    && desc[r.mid] == Desc(Data(r.b), BSIZE, true, !r.write, r.tail)
    && desc[r.tail] == Desc(Status(h), 1, false, true, 0)
    && ops[h] == Command(r.write, Sector(bufs[r.b].blockno))
  }

  /** Its buffer and status byte agree with how far it is, and its transfer is on record once done. */
  ghost predicate Tracked(info: seq<Info>, bufs: seq<Buf>, nblocks: nat, log: seq<Transfer>, h: nat, r: Request)
  {
    && |info| == NUM && h < NUM && r.b < |bufs| && bufs[r.b].blockno < nblocks
    && info[h] == Info(Some(r.b), if r.phase.Posted? || r.phase.Taken? then 0xff else 0)
    && (bufs[r.b].busy <==> !r.phase.Notified?)
    && (r.write ==> bufs[r.b].data == r.data) && r.since <= |log|
    && (r.phase.Done? || r.phase.Notified? ==>
          r.since <= r.at < |log| && log[r.at] == Transfer(r.b, r.write, bufs[r.b].blockno, bufs[r.b].data))
  }

  /** No two requests use the same buffer. */
  ghost predicate BufsApart(act: Requests)
  {
    forall g, h :: 0 <= g < h < |act| && act[g].Some? && act[h].Some? ==> act[g].value.b != act[h].value.b
  }

  predicate InRing(act: Requests, ring: seq<nat>, phase: Phase, k: nat)
    requires |ring| == NUM
  {
    var h := ring[Slot(k)];
    h < |act| && act[h].Some? && act[h].value.phase == phase && act[h].value.pos == k
  }

  /** Entries lo up to hi of the ring are the requests in that phase, each once and none overwritten. */
  ghost predicate RingOk(act: Requests, ring: seq<nat>, phase: Phase, lo: nat, hi: nat)
  {
    && lo <= hi <= lo + 2 && |ring| == NUM
    && (forall k :: lo <= k < hi ==> InRing(act, ring, phase, k))
    && (forall h :: 0 <= h < |act| && act[h].Some? && act[h].value.phase == phase ==>
          lo <= act[h].value.pos < hi && ring[Slot(act[h].value.pos)] == h)
  }

  /** A count as a 16-bit index, the index after one, and an index's place in a ring. */
  function Index(n: nat): nat { n % WRAP }

  function Next(i: nat): nat { (i + 1) % WRAP }

  function Slot(i: nat): (k: nat)
    ensures k < NUM
  {
    i % NUM
  }

  /** Equal 16-bit indices mean equal counts, as long as they are close. */
  lemma Close(lo: nat, hi: nat)
    requires lo <= hi <= lo + 2
    ensures Index(lo) == Index(hi) <==> lo == hi
  {
  }

  lemma WrapNext(n: nat)
    ensures Next(Index(n)) == Index(n + 1)
  {
  }

  /** The ring's size divides the range of its indices. */
  lemma WrapSlot(n: nat)
    ensures Slot(Index(n)) == Slot(n)
  {
  }

  lemma Apart(k: nat, l: nat)
    requires k < l < k + NUM
    ensures Slot(k) != Slot(l)
  {
  }

  /** Storing the next entry of a ring does not touch the entries that are still in it. */
  lemma RingPush(act0: Requests, act1: Requests, ring: seq<nat>, phase: Phase, lo: nat, hi: nat, h: nat,
                 own: seq<Option<nat>>, free: seq<bool>)
    requires RingOk(act0, ring, phase, lo, hi) && |act1| == |act0| && h < |act0| && Partition(act1, own, free)
    requires forall g :: 0 <= g < |act0| && g != h ==> act1[g] == act0[g]
    requires act0[h].Some? ==> act0[h].value.phase != phase
    requires act1[h].Some? && act1[h].value.phase == phase && act1[h].value.pos == hi
    ensures RingOk(act1, ring[Slot(hi) := h], phase, lo, hi + 1)
  {
    var ring1 := ring[Slot(hi) := h];
    forall k | lo <= k < hi
      ensures InRing(act1, ring1, phase, k)
    {
      assert InRing(act0, ring, phase, k);
      Apart(k, hi);
    }
    forall g | 0 <= g < |act1| && act1[g].Some? && act1[g].value.phase == phase
      ensures lo <= act1[g].value.pos < hi + 1 && ring1[Slot(act1[g].value.pos)] == g
    {
      if g != h {
        Apart(act1[g].value.pos, hi);
      }
    }
    if hi == lo + 2 {
      assert InRing(act0, ring, phase, lo) && InRing(act0, ring, phase, lo + 1);
      AtMostTwo(act1, own, free, ring[Slot(lo)], ring[Slot(lo + 1)], h);
    }
  }

  /** Consuming the first entry of a ring. */
  lemma RingPop(act0: Requests, act1: Requests, ring: seq<nat>, phase: Phase, lo: nat, hi: nat, h: nat)
    requires RingOk(act0, ring, phase, lo, hi) && |act1| == |act0| && lo < hi && h == ring[Slot(lo)] && h < |act0|
    requires forall g :: 0 <= g < |act0| && g != h ==> act1[g] == act0[g]
    requires act1[h].Some? ==> act1[h].value.phase != phase
    ensures RingOk(act1, ring, phase, lo + 1, hi)
  {
    assert InRing(act0, ring, phase, lo);
    forall k | lo + 1 <= k < hi
      ensures InRing(act1, ring, phase, k)
    {
      assert InRing(act0, ring, phase, k);
    }
  }

  /** A change of a request that is and was not in the ring. */
  lemma RingKept(act0: Requests, act1: Requests, ring: seq<nat>, phase: Phase, lo: nat, hi: nat, h: nat)
    requires RingOk(act0, ring, phase, lo, hi) && |act1| == |act0| && h < |act0|
    requires forall g :: 0 <= g < |act0| && g != h ==> act1[g] == act0[g]
    requires act0[h].Some? ==> act0[h].value.phase != phase
    requires act1[h].Some? ==> act1[h].value.phase != phase
    ensures RingOk(act1, ring, phase, lo, hi)
  {
    forall k | lo <= k < hi
      ensures InRing(act1, ring, phase, k)
    {
      assert InRing(act0, ring, phase, k);
    }
  }

  /** A request moves on without changing its descriptors. */
  lemma PartitionKept(act0: Requests, act1: Requests, own: seq<Option<nat>>, free: seq<bool>, h: nat)
    requires Partition(act0, own, free) && |act1| == |act0| && h < |act0| && act0[h].Some? && act1[h].Some?
    requires forall g :: 0 <= g < |act0| && g != h ==> act1[g] == act0[g]
    requires act1[h].value.mid == act0[h].value.mid && act1[h].value.tail == act0[h].value.tail
    ensures Partition(act1, own, free)
  {
  }

  ghost predicate AllDescribed(act: Requests, desc: seq<Desc>, ops: seq<Command>, bufs: seq<Buf>)
  {
    forall h :: 0 <= h < |act| && act[h].Some? ==> Described(desc, ops, bufs, h, act[h].value)
  }

  ghost predicate AllTracked(act: Requests, info: seq<Info>, bufs: seq<Buf>, nblocks: nat, log: seq<Transfer>)
  {
    forall h :: 0 <= h < |act| && act[h].Some? ==> Tracked(info, bufs, nblocks, log, h, act[h].value)
  }

  lemma RingFacts(act: Requests, ring: seq<nat>, phase: Phase, lo: nat, hi: nat)
    requires RingOk(act, ring, phase, lo, hi)
    ensures lo <= hi <= lo + 2 && |ring| == NUM && (Index(lo) == Index(hi) <==> lo == hi)
    ensures lo < hi ==> InRing(act, ring, phase, lo)
  {
  }

  lemma DescribedStep(act0: Requests, act1: Requests, desc: seq<Desc>, ops: seq<Command>, bufs0: seq<Buf>,
                      bufs1: seq<Buf>, h: nat)
    requires AllDescribed(act0, desc, ops, bufs0) && h < |act0| && act0[h].Some?
    requires |bufs1| == |bufs0| && forall b :: 0 <= b < |bufs0| ==> bufs1[b].blockno == bufs0[b].blockno
    requires |act1| == |act0| && act1[h].Some? && act1 == act0[h := act1[h]]
    requires SameRequest(act0[h].value, act1[h].value)
    ensures AllDescribed(act1, desc, ops, bufs1)
  {
  }

  /** One request changed, with its own entry in info and its own buffer, and transfers were added. */
  lemma TrackedStep(act0: Requests, act1: Requests, info0: seq<Info>, info1: seq<Info>, bufs0: seq<Buf>,
                    bufs1: seq<Buf>, nblocks: nat, log0: seq<Transfer>, log1: seq<Transfer>, h: nat, r: Request)
    requires AllTracked(act0, info0, bufs0, nblocks, log0) && BufsApart(act0) && |act0| == NUM
    requires h < NUM && act1 == act0[h := Some(r)] && forall g :: 0 <= g < NUM && g != h && act0[g].Some? ==>
             act0[g].value.b != r.b
    requires |info0| == |info1| == NUM && info1 == info0[h := info1[h]] && r.b < |bufs0| == |bufs1|
    requires bufs1 == bufs0[r.b := bufs1[r.b]]
    requires log0 <= log1 && Tracked(info1, bufs1, nblocks, log1, h, r)
    ensures AllTracked(act1, info1, bufs1, nblocks, log1) && BufsApart(act1)
  {
  }

  /** A request's buffer is not another's. */
  lemma OnlyBuf(act: Requests, h: nat)
    requires BufsApart(act) && h < |act| && act[h].Some?
    ensures forall g :: 0 <= g < |act| && g != h && act[g].Some? ==> act[g].value.b != act[h].value.b
  {
  }

  /** Only how far the request is has changed. */
  predicate SameRequest(r0: Request, r1: Request)
  {
    r1 == r0.(phase := r1.phase, pos := r1.pos, at := r1.at)
  }

  class Driver {
    const d: Descriptors
    /** avail->ring and avail->idx, used->ring and used->idx, and used_idx. */
    var avail: seq<nat>
    var availIdx: nat
    var used: seq<nat>
    var usedIdx: nat
    var seenIdx: nat
    var info: seq<Info>
    var ops: seq<Command>
    var bufs: seq<Buf>
    /** The device: its disk, and how far it has read the available ring. */
    var blocks: seq<Block>
    var devIdx: nat
    /** The requests in flight, the chain each descriptor is part of, the rings' indices without wrap-around,
        and all transfers so far. */
    ghost var act: Requests
    ghost var own: seq<Option<nat>>
    ghost var nAvail: nat
    ghost var nDev: nat
    ghost var nUsed: nat
    ghost var nSeen: nat
    ghost var log: seq<Transfer>

    ghost predicate Valid()
      reads this, d
    {
      d.Valid() && Waiting(d.free)
    }

    constructor (blocks: seq<Block>, bufs: seq<Buf>)
      requires |blocks| <= 0x8000_0000
      ensures Valid() && this.blocks == blocks && this.bufs == bufs && fresh(d) && forall h :: 0 <= h < NUM ==>
              act[h] == None
    {
      d := new Descriptors();
      avail, used := seq(NUM, (i: nat) => 0), seq(NUM, (i: nat) => 0);
      availIdx, usedIdx, seenIdx, devIdx := 0, 0, 0, 0;
      info := seq(NUM, (i: nat) => Info(None, 0));
      ops := seq(NUM, (i: nat) => Command(false, 0));
      this.blocks, this.bufs := blocks, bufs;
      act, own := seq(NUM, (i: nat) => None), seq(NUM, (i: nat) => None);
      nAvail, nDev, nUsed, nSeen, log := 0, 0, 0, 0, [];
    }

    /** The device takes the next request from the available ring. */
    method DeviceTake() returns (h: nat)
      requires Valid() && devIdx != availIdx
      modifies this`devIdx, this`act, this`nDev
      ensures Valid() && h < NUM && old(act)[h].Some? && old(act)[h].value.phase.Posted?
      ensures act == old(act)[h := Some(old(act)[h].value.(phase := Taken))] && nDev == old(nDev) + 1
    {
      hide Described, AllDescribed, AllTracked, Partition, RingOk, BufsApart, Index, Next, Slot;
      ghost var act0 := act;
      RingFacts(act, avail, Posted, nDev, nAvail);
      WrapSlot(nDev);
      WrapNext(nDev);
      PartitionSize(act, own, d.free);
      h := avail[Slot(devIdx)];
      devIdx := Next(devIdx);
      act := act[h := Some(act[h].value.(phase := Taken))];
      RingPop(act0, act, avail, Posted, nDev, nAvail, h);
      RingKept(act0, act, used, Done, nSeen, nUsed, h);
      PartitionKept(act0, act, own, d.free, h);
      nDev := nDev + 1;
      DescribedStep(act0, act, d.desc, ops, bufs, bufs, h);
      OnlyBuf(act0, h);
      TrackedAt(act0, info, bufs, |blocks|, log, h);
      TrackedStep(act0, act, info, info, bufs, bufs, |blocks|, log, log, h, act[h].value);
    }

    /** The device carries out a request that it has taken, in whatever order, and reports it in the used
        ring. */
    method DeviceComplete(h: nat)
      requires Valid() && h < NUM && act[h].Some? && act[h].value.phase.Taken?
      modifies this`blocks, this`bufs, this`info, this`used, this`usedIdx, this`act, this`nUsed, this`log
      ensures Valid() && |bufs| == |old(bufs)| && |blocks| == |old(blocks)| && nUsed == old(nUsed) + 1
      ensures var r := old(act)[h].value;
              && Performed(old(blocks), old(bufs), old(log), blocks, bufs, log, r)
              && act == old(act)[h := Some(r.(phase := Done, pos := old(nUsed), at := |old(log)|))]
    {
      hide Described, Tracked, AllDescribed, AllTracked, Partition, RingOk, BufsApart, Index, Next, Slot, Performed;
      hide InRing;
      ghost var act0, bufs0, info0, log0 := act, bufs, info, log;
      PartitionSize(act, own, d.free);
      Perform(h);
      RingFacts(act, used, Done, nSeen, nUsed);
      WrapSlot(nUsed);
      WrapNext(nUsed);
      used := used[Slot(usedIdx) := h];
      usedIdx := Next(usedIdx);
      ghost var r := act[h].value.(phase := Done, pos := nUsed, at := |log0|);
      act := act[h := Some(r)];
      PartitionKept(act0, act, own, d.free, h);
      RingPush(act0, act, old(used), Done, nSeen, nUsed, h, own, d.free);
      RingKept(act0, act, avail, Posted, nDev, nAvail, h);
      nUsed := nUsed + 1;
      DescribedStep(act0, act, d.desc, ops, bufs0, bufs, h);
      OnlyBuf(act0, h);
      TrackedStep(act0, act, info0, info, bufs0, bufs, |blocks|, log0, log, h, r);
    }

    /** The transfer: the device follows the chain of descriptors to the command, the buffer and the status
        byte. */
    method Perform(h: nat)
      requires |act| == NUM && h < NUM && act[h].Some? && act[h].value.phase.Taken? && |blocks| <= 0x8000_0000
      requires AllDescribed(act, d.desc, ops, bufs) && AllTracked(act, info, bufs, |blocks|, log)
      modifies this`blocks, this`bufs, this`info, this`log
      ensures |bufs| == |old(bufs)| && |blocks| == |old(blocks)| && |info| == |old(info)| == NUM
      ensures info == old(info)[h := info[h]]
      ensures var r := act[h].value;
              && Performed(old(blocks), old(bufs), old(log), blocks, bufs, log, r)
              && r.b < |bufs| && bufs == old(bufs)[r.b := bufs[r.b]] && old(log) <= log
              && (forall b :: 0 <= b < |bufs| ==> bufs[b].blockno == old(bufs)[b].blockno)
              && forall pos: nat :: Tracked(info, bufs, |blocks|, log, h,
                                            r.(phase := Done, pos := pos, at := |old(log)|))
    {
      hide AllDescribed, AllTracked, Sector;
      ghost var r := act[h].value;
      DescribedAt(act, d.desc, ops, bufs, h);
      TrackedAt(act, info, bufs, |blocks|, log, h);
      SectorBlock(bufs[r.b].blockno);
      var command := ops[d.desc[h].addr.i];
      var mid := d.desc[h].next;
      var b, tail := d.desc[mid].addr.b, d.desc[mid].next;
      var n := command.sector / 2;
      assert n == bufs[b].blockno;
      if command.write {
        blocks := blocks[n := bufs[b].data];
      } else {
        bufs := bufs[b := bufs[b].(data := blocks[n])];
      }
      log := log + [Transfer(b, command.write, n, blocks[n])];
      var i := d.desc[tail].addr.i;
      info := info[i := info[i].(status := 0)];
    }

    /** virtio_disk_rw() up to its wait: the request is described and handed to the device. It has to wait
        for descriptors, and has changed nothing, when there are fewer than three. */
    method Submit(b: nat, write: bool) returns (ok: bool, h: nat)
      requires Valid() && b < |bufs| && bufs[b].blockno < |blocks|
      requires forall g :: 0 <= g < NUM && act[g].Some? ==> act[g].value.b != b
      modifies this`avail, this`availIdx, this`info, this`ops, this`bufs, this`act, this`own, this`nAvail, d
      ensures Valid() && (ok <==> old(CountFree(d.free)) >= 3)
      ensures !ok ==> act == old(act) && bufs == old(bufs) && nAvail == old(nAvail)
      ensures !ok ==> d.free == old(d.free) && d.desc == old(d.desc)
      ensures !ok ==> avail == old(avail) && availIdx == old(availIdx) && info == old(info)
      ensures !ok ==> ops == old(ops) && own == old(own)
      ensures ok ==>
                && h < NUM && old(act)[h] == None && act == old(act)[h := act[h]] && act[h].Some?
                    && nAvail == old(nAvail) + 1
                && bufs == old(bufs)[b := old(bufs)[b].(busy := true)]
                && var r := act[h].value;
                   r.b == b && r.write == write && r.phase.Posted? && r.since == |log| && r.data == old(bufs)[b].data
    {
      hide Described, Tracked, AllDescribed, AllTracked, Partition, RingOk, BufsApart, Index, Next, Slot, InRing;
      hide CountFree;
      ghost var free0 := d.free;
      PartitionSize(act, own, d.free);
      var idx;
      ok, idx := d.Alloc3Desc();
      h := 0;
      if !ok {
        return;
      }
      h := idx[0];
      Post(b, write, idx, free0);
    }

    /** Describe the request with three descriptors and put it into the available ring. */
    method Post(b: nat, write: bool, idx: seq<nat>, ghost free0: seq<bool>)
      requires Waiting(free0) && b < |bufs| && bufs[b].blockno < |blocks| && |d.desc| == |d.free| == NUM
      requires forall i :: 0 <= i < NUM && free0[i] ==> d.desc[i] == EMPTY
      requires forall g :: 0 <= g < NUM && act[g].Some? ==> act[g].value.b != b
      requires |idx| == 3 && idx[0] < idx[1] < idx[2] < NUM && free0[idx[0]] && free0[idx[1]] && free0[idx[2]]
      requires d.free == free0[idx[0] := false][idx[1] := false][idx[2] := false]
      modifies this`avail, this`availIdx, this`info, this`ops, this`bufs, this`act, this`own, this`nAvail, d`desc
      ensures Valid() && nAvail == old(nAvail) + 1 && bufs == old(bufs)[b := old(bufs)[b].(busy := true)]
      ensures old(act)[idx[0]] == None
      ensures act == old(act)[idx[0] := Some(Request(idx[1], idx[2], b, write, old(bufs)[b].data, Posted, old(nAvail),
                                                     |log|, 0))]
    {
      hide Described, Tracked, AllDescribed, AllTracked, Partition, RingOk, BufsApart, Index, Next, Slot, InRing;
      ghost var act0, own0, info0, ops0, bufs0, desc0 := act, own, info, ops, bufs, d.desc;
      var h := idx[0];
      ghost var r := Request(idx[1], idx[2], b, write, bufs[b].data, Posted, nAvail, |log|, 0);
      PartitionSize(act, own, free0);
      Format(b, write, idx, nAvail);
      RingFacts(act, avail, Posted, nDev, nAvail);
      WrapSlot(nAvail);
      WrapNext(nAvail);
      avail := avail[Slot(availIdx) := h];
      availIdx := Next(availIdx);
      act := act[h := Some(r)];
      own := own[h := Some(h)][r.mid := Some(h)][r.tail := Some(h)];
      NewRequest(act0, own0, free0, act, own, d.free, h, r, old(avail), nDev, nAvail, used, nSeen, nUsed);
      nAvail := nAvail + 1;
      DescribedMore(act0, own0, free0, desc0, ops0, bufs0, act, d.desc, ops, bufs, h, r);
      TrackedStep(act0, act, info0, info, bufs0, bufs, |blocks|, log, log, h, r);
    }

    /** Valid(), when free0 are the free descriptors. */
    ghost predicate Waiting(free0: seq<bool>)
      reads this, d
    {
      && Partition(act, own, free0) && BufsApart(act) && |blocks| <= 0x8000_0000 && |ops| == NUM == |info|
      && AllDescribed(act, d.desc, ops, bufs) && AllTracked(act, info, bufs, |blocks|, log)
      && RingOk(act, avail, Posted, nDev, nAvail) && RingOk(act, used, Done, nSeen, nUsed)
      && availIdx == Index(nAvail) && devIdx == Index(nDev) && usedIdx == Index(nUsed) && seenIdx == Index(nSeen)
    }

    /** Fill in the descriptors, the command header, the status and the buffer's flag. */
    method Format(b: nat, write: bool, idx: seq<nat>, ghost pos: nat)
      requires |idx| == 3 && idx[0] < idx[1] < idx[2] < NUM && |d.desc| == |ops| == |info| == NUM && b < |bufs|
      requires bufs[b].blockno < |blocks|
      modifies this`info, this`ops, this`bufs, d`desc
      ensures |d.desc| == |ops| == |info| == NUM
      ensures d.desc == old(d.desc)[idx[0] := d.desc[idx[0]]][idx[1] := d.desc[idx[1]]][idx[2] := d.desc[idx[2]]]
      ensures ops == old(ops)[idx[0] := ops[idx[0]]] && info == old(info)[idx[0] := info[idx[0]]]
      ensures bufs == old(bufs)[b := old(bufs)[b].(busy := true)]
      ensures var r := Request(idx[1], idx[2], b, write, old(bufs)[b].data, Posted, pos, |log|, 0);
                Described(d.desc, ops, bufs, idx[0], r) && Tracked(info, bufs, |blocks|, log, idx[0], r)
    {
      hide Sector;
      var h, m, t := idx[0], idx[1], idx[2];
      ops := ops[h := Command(write, Sector(bufs[b].blockno))];
      d.desc := d.desc[h := Desc(Op(h), 16, true, false, m)];
      d.desc := d.desc[m := Desc(Data(b), BSIZE, true, !write, t)];
      info := info[h := info[h].(status := 0xff)];
      d.desc := d.desc[t := Desc(Status(h), 1, false, true, 0)];
      bufs := bufs[b := bufs[b].(busy := true)];
      info := info[h := info[h].(b := Some(b))];
    }

    /** One turn of virtio_disk_intr()'s loop. The status is 0, so it does not panic. */
    method IntrTurn() returns (h: nat)
      requires Valid() && seenIdx != usedIdx
      modifies this`bufs, this`seenIdx, this`act, this`nSeen
      ensures Valid() && h < NUM && old(act)[h].Some? && old(act)[h].value.phase.Done? && nSeen == old(nSeen) + 1
      ensures act == old(act)[h := Some(old(act)[h].value.(phase := Notified))]
      ensures old(act)[h].value.b < |old(bufs)|
      ensures bufs == old(bufs)[old(act)[h].value.b := old(bufs)[old(act)[h].value.b].(busy := false)]
    {
      hide Described, AllDescribed, AllTracked, Partition, RingOk, BufsApart, Index, Next, Slot;
      ghost var act0, bufs0 := act, bufs;
      RingFacts(act, used, Done, nSeen, nUsed);
      WrapSlot(nSeen);
      WrapNext(nSeen);
      PartitionSize(act, own, d.free);
      h := used[Slot(seenIdx)];
      TrackedAt(act, info, bufs, |blocks|, log, h);
      assert info[h].status == 0;
      var b := info[h].b.value;
      bufs := bufs[b := bufs[b].(busy := false)];
      seenIdx := Next(seenIdx);
      act := act[h := Some(act[h].value.(phase := Notified))];
      RingPop(act0, act, used, Done, nSeen, nUsed, h);
      RingKept(act0, act, avail, Posted, nDev, nAvail, h);
      PartitionKept(act0, act, own, d.free, h);
      nSeen := nSeen + 1;
      DescribedStep(act0, act, d.desc, ops, bufs0, bufs, h);
      OnlyBuf(act0, h);
      TrackedStep(act0, act, info, info, bufs0, bufs, |blocks|, log, log, h, act[h].value);
    }

    /** virtio_disk_intr(): all requests in the used ring are reported. */
    method Intr()
      requires Valid()
      modifies this`bufs, this`seenIdx, this`act, this`nSeen
      ensures Valid() && nSeen == nUsed && forall h :: 0 <= h < NUM && act[h].Some? ==> !act[h].value.phase.Done?
    {
      hide Described, AllDescribed, AllTracked, Partition, BufsApart, Index, Next, Slot, InRing;
      RingFacts(act, used, Done, nSeen, nUsed);
      while seenIdx != usedIdx
        invariant Valid() && nSeen <= nUsed && (seenIdx == usedIdx <==> nSeen == nUsed)
        decreases nUsed - nSeen
      {
        var h := IntrTurn();
        RingFacts(act, used, Done, nSeen, nUsed);
      }
      PartitionSize(act, own, d.free);
    }

    /** virtio_disk_rw() after its wait: when the buffer is no longer busy, its own request has been carried
        out, at a time after it was made, with the data the buffer holds. The descriptors become free. */
    method Finish(b: nat, h: nat)
      requires Valid() && h < NUM && act[h].Some? && act[h].value.b == b && b < |bufs| && !bufs[b].busy
      modifies this`info, this`act, this`own, d
      ensures Valid() && act == old(act)[h := None]
      ensures var r := old(act)[h].value;
              && r.since <= r.at < |log| && log[r.at] == Transfer(b, r.write, bufs[b].blockno, bufs[b].data)
              && (r.write ==> bufs[b].data == r.data)
              && r.mid < NUM && r.tail < NUM && d.free == old(d.free)[h := true][r.mid := true][r.tail := true]
    {
      hide AllDescribed, AllTracked, Partition, RingOk, BufsApart, Index, Next, Slot, InRing, Sector;
      ghost var act0, own0, info0, desc0, free0 := act, own, info, d.desc, d.free;
      PartitionSize(act, own, d.free);
      ghost var r := act[h].value;
      DescribedAt(act, d.desc, ops, bufs, h);
      TrackedAt(act, info, bufs, |blocks|, log, h);
      ChainAt(act, own, d.free, h);
      info := info[h := info[h].(b := None)];
      d.FreeChain(h, r.mid, r.tail);
      act := act[h := None];
      own := own[h := None][r.mid := None][r.tail := None];
      ChainGone(act0, own0, free0, act, own, d.free, h, r);
      RingKept(act0, act, avail, Posted, nDev, nAvail, h);
      RingKept(act0, act, used, Done, nSeen, nUsed, h);
      DescribedLess(act0, own0, free0, desc0, ops, bufs, act, d.desc, h, r);
      TrackedLess(act0, info0, act, info, bufs, |blocks|, log, h);
    }
  }

  lemma ChainAt(act: Requests, own: seq<Option<nat>>, free: seq<bool>, h: nat)
    requires Partition(act, own, free) && h < NUM && act[h].Some?
    ensures ChainOk(own, h, act[h].value) && !free[h] && !free[act[h].value.mid] && !free[act[h].value.tail]
  {
  }

  lemma NewChain(act0: Requests, own0: seq<Option<nat>>, free0: seq<bool>, act1: Requests, own1: seq<Option<nat>>,
                 free1: seq<bool>, h: nat, r: Request)
    requires Partition(act0, own0, free0) && h < r.mid < r.tail < NUM && free0[h] && free0[r.mid] && free0[r.tail]
    requires act1 == act0[h := Some(r)] && own1 == own0[h := Some(h)][r.mid := Some(h)][r.tail := Some(h)]
    requires free1 == free0[h := false][r.mid := false][r.tail := false]
    ensures Partition(act1, own1, free1) && act0[h] == None
  {
    assert act0[h].Some? ==> ChainOk(own0, h, act0[h].value);
    forall g | 0 <= g < NUM && act1[g].Some?
      ensures ChainOk(own1, g, act1[g].value)
    {
      if g != h {
        assert ChainOk(own0, g, act0[g].value);
      }
    }
  }

  /** A new request takes three free descriptors and the next entry of the available ring. */
  lemma NewRequest(act0: Requests, own0: seq<Option<nat>>, free0: seq<bool>, act1: Requests, own1: seq<Option<nat>>,
                   free1: seq<bool>, h: nat, r: Request, avail: seq<nat>, dev: nat, n: nat, used: seq<nat>, seen: nat,
                   done: nat)
    requires Partition(act0, own0, free0) && h < r.mid < r.tail < NUM && free0[h] && free0[r.mid] && free0[r.tail]
    requires act1 == act0[h := Some(r)] && own1 == own0[h := Some(h)][r.mid := Some(h)][r.tail := Some(h)]
    requires free1 == free0[h := false][r.mid := false][r.tail := false]
    requires RingOk(act0, avail, Posted, dev, n) && RingOk(act0, used, Done, seen, done) && r.phase.Posted?
    requires r.pos == n
    ensures Partition(act1, own1, free1) && act0[h] == None
    ensures RingOk(act1, avail[Slot(n) := h], Posted, dev, n + 1) && RingOk(act1, used, Done, seen, done)
  {
    hide RingOk, Slot, InRing;
    NewChain(act0, own0, free0, act1, own1, free1, h, r);
    RingPush(act0, act1, avail, Posted, dev, n, h, own1, free1);
    RingKept(act0, act1, used, Done, seen, done, h);
  }

  lemma ChainGone(act0: Requests, own0: seq<Option<nat>>, free0: seq<bool>, act1: Requests, own1: seq<Option<nat>>,
                  free1: seq<bool>, h: nat, r: Request)
    requires Partition(act0, own0, free0) && h < NUM && act0[h] == Some(r) && r.mid < NUM && r.tail < NUM
    requires act1 == act0[h := None] && own1 == own0[h := None][r.mid := None][r.tail := None]
    requires free1 == free0[h := true][r.mid := true][r.tail := true]
    ensures Partition(act1, own1, free1)
  {
    assert ChainOk(own0, h, r);
    forall g | 0 <= g < NUM && act1[g].Some?
      ensures ChainOk(own1, g, act1[g].value)
    {
      assert ChainOk(own0, g, act0[g].value);
    }
  }

  lemma DescribedMore(act0: Requests, own0: seq<Option<nat>>, free0: seq<bool>, desc0: seq<Desc>, ops0: seq<Command>,
                      bufs0: seq<Buf>, act1: Requests, desc1: seq<Desc>, ops1: seq<Command>, bufs1: seq<Buf>, h: nat,
                      r: Request)
    requires AllDescribed(act0, desc0, ops0, bufs0) && Partition(act0, own0, free0) && h < r.mid < r.tail < NUM
    requires free0[h] && free0[r.mid] && free0[r.tail] && act1 == act0[h := Some(r)]
    requires Described(desc1, ops1, bufs1, h, r)
    requires |desc0| == |ops0| == NUM && desc1 == desc0[h := desc1[h]][r.mid := desc1[r.mid]][r.tail := desc1[r.tail]]
    requires ops1 == ops0[h := ops1[h]] && |bufs1| == |bufs0| && forall b :: 0 <= b < |bufs0| ==>
             bufs1[b].blockno == bufs0[b].blockno
    ensures AllDescribed(act1, desc1, ops1, bufs1)
  {
    hide Sector;
    forall g | 0 <= g < |act1| && act1[g].Some?
      ensures Described(desc1, ops1, bufs1, g, act1[g].value)
    {
      if g != h {
        assert Described(desc0, ops0, bufs0, g, act0[g].value) && ChainOk(own0, g, act0[g].value);
      }
    }
  }

  lemma DescribedLess(act0: Requests, own0: seq<Option<nat>>, free0: seq<bool>, desc0: seq<Desc>, ops: seq<Command>,
                      bufs: seq<Buf>, act1: Requests, desc1: seq<Desc>, h: nat, r: Request)
    requires AllDescribed(act0, desc0, ops, bufs) && Partition(act0, own0, free0) && h < NUM && act0[h] == Some(r)
    requires r.mid < NUM && r.tail < NUM
    requires |desc0| == NUM && act1 == act0[h := None] && desc1 == desc0[h := EMPTY][r.mid := EMPTY][r.tail := EMPTY]
    ensures AllDescribed(act1, desc1, ops, bufs)
  {
    hide Sector;
    assert ChainOk(own0, h, r);
    forall g | 0 <= g < |act1| && act1[g].Some?
      ensures Described(desc1, ops, bufs, g, act1[g].value)
    {
      assert Described(desc0, ops, bufs, g, act0[g].value) && ChainOk(own0, g, act0[g].value);
    }
  }

  lemma TrackedLess(act0: Requests, info0: seq<Info>, act1: Requests, info1: seq<Info>, bufs: seq<Buf>, nblocks: nat,
                    log: seq<Transfer>, h: nat)
    requires AllTracked(act0, info0, bufs, nblocks, log) && BufsApart(act0) && h < |act0| == NUM
    requires |info0| == |info1| == NUM
    requires act1 == act0[h := None] && info1 == info0[h := info1[h]]
    ensures AllTracked(act1, info1, bufs, nblocks, log) && BufsApart(act1)
  {
  }

  /** The disk block or the buffer has received the other's data, and the transfer is on record. */
  ghost predicate Performed(blocks0: seq<Block>, bufs0: seq<Buf>, log0: seq<Transfer>, blocks1: seq<Block>,
                            bufs1: seq<Buf>, log1: seq<Transfer>, r: Request)
  {
    && r.b < |bufs0| && bufs0[r.b].blockno < |blocks0|
    && var n := bufs0[r.b].blockno;
       && blocks1 == (if r.write then blocks0[n := r.data] else blocks0)
       && bufs1 == (if r.write then bufs0 else bufs0[r.b := bufs0[r.b].(data := blocks0[n])])
       && log1 == log0 + [Transfer(r.b, r.write, n, if r.write then r.data else blocks0[n])]
  }

  lemma PartitionSize(act: Requests, own: seq<Option<nat>>, free: seq<bool>)
    requires Partition(act, own, free)
    ensures |act| == |own| == |free| == NUM
  {
  }

  lemma DescribedAt(act: Requests, desc: seq<Desc>, ops: seq<Command>, bufs: seq<Buf>, h: nat)
    requires AllDescribed(act, desc, ops, bufs) && h < |act| && act[h].Some?
    ensures Described(desc, ops, bufs, h, act[h].value)
  {
  }

  lemma TrackedAt(act: Requests, info: seq<Info>, bufs: seq<Buf>, nblocks: nat, log: seq<Transfer>, h: nat)
    requires AllTracked(act, info, bufs, nblocks, log) && h < |act| && act[h].Some?
    ensures Tracked(info, bufs, nblocks, log, h, act[h].value)
  {
  }

  lemma SectorBlock(blockno: nat)
    ensures blockno < 0x8000_0000 ==> Sector(blockno) / 2 == blockno
  {
  }
}
