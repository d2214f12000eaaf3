/** The block and inode-content layers of kernel/fs.c, over the block contents that the log
    layer presents. */
module FileSystem {
  import opened Common
  import opened Blocks
  import opened RedoLog
  import opened BlockMap
  import opened Truncate

  // ---- on-disk inodes ----

  /** Word w of struct dinode: type and major, minor and nlink, size, then addrs[]. */
  function InodeWord(ip: Inode, w: nat): Word
    requires w < 16
  {
    if w == 0 then ip.kind + 0x1_0000 * ip.major
    else if w == 1 then ip.minor + 0x1_0000 * ip.nlink
    else if w == 2 then ip.size
    else ip.addrs[w - 3]
  }

  /** The first w words of inode ip stored as dinode number slot of block b. */
  function PutInode(b: Block, slot: nat, ip: Inode, w: nat): Block
    requires slot < IPB && w <= 16
  {
    if w == 0 then b else PutWord(PutInode(b, slot, ip, w - 1), 16 * slot + w - 1, InodeWord(ip, w - 1))
  }

  function GetAddrs(b: Block, slot: nat): (r: Addrs)
    requires slot < IPB
    ensures forall k :: 0 <= k <= NDIRECT ==> r[k] == WordAt(b, 16 * slot + (3 + k))
  {
    var s: seq<Word> := seq<Word>(NDIRECT + 1, k requires 0 <= k <= NDIRECT => WordAt(b, 16 * slot + (3 + k)));
    s
  }

  /** ilock()'s copy from disk. */
  function GetInode(b: Block, slot: nat): Inode
    requires slot < IPB
  {
    var w0, w1 := WordAt(b, 16 * slot), WordAt(b, 16 * slot + 1);
    Inode(w0 % 0x1_0000, w0 / 0x1_0000, w1 % 0x1_0000, w1 / 0x1_0000, WordAt(b, 16 * slot + 2),
          GetAddrs(b, slot))
  }

  lemma {:induction false} PutInodeReads(b: Block, slot: nat, ip: Inode, w: nat, x: nat)
    requires slot < IPB && w <= 16 && x < WORDS
    ensures WordAt(PutInode(b, slot, ip, w), x)
              == if 16 * slot <= x < 16 * slot + w then InodeWord(ip, x - 16 * slot) else WordAt(b, x)
  {
    hide WordAt, PutWord, InodeWord;
    if w > 0 {
      PutInodeReads(b, slot, ip, w - 1, x);
      PutWordReads(PutInode(b, slot, ip, w - 1), 16 * slot + w - 1, InodeWord(ip, w - 1), x);
    }
  }

  /** iupdate() then ilock() gives the inode back, and leaves the block's other inodes alone. */
  lemma InodeRoundTrip(b: Block, slot: nat, ip: Inode, other: nat)
    requires slot < IPB && other < IPB
    ensures GetInode(PutInode(b, slot, ip, 16), other) == if other == slot then ip else GetInode(b, other)
  {
    hide WordAt, PutWord;
    var b' := PutInode(b, slot, ip, 16);
    var got := GetAddrs(b', other);
    forall k | 0 <= k <= NDIRECT
      ensures got[k] == (if other == slot then ip.addrs else GetAddrs(b, other))[k]
    {
      PutInodeReads(b, slot, ip, 16, 16 * other + (3 + k));
    }
    assert got == if other == slot then ip.addrs else GetAddrs(b, other);
    PutInodeReads(b, slot, ip, 16, 16 * other);
    PutInodeReads(b, slot, ip, 16, 16 * other + 1);
    PutInodeReads(b, slot, ip, 16, 16 * other + 2);
  }

  // ---- bytes ----

  function Min(a: nat, b: nat): nat { if a < b then a else b }

  /** memmove(data + at, bytes, |bytes|) */
  function Splice(b: Block, at: nat, bytes: seq<Byte>): (r: Block)
    requires at + |bytes| <= BSIZE
    ensures forall x :: 0 <= x < BSIZE ==>
              r.bytes[x] == if at <= x < at + |bytes| then bytes[x - at] else b.bytes[x]
  {
    Block(b.bytes[..at] + bytes + b.bytes[at + |bytes|..])
  }

  /** A byte sequence with src written over it at off, growing as needed. */
  function Overwrite(s: seq<Byte>, off: nat, src: seq<Byte>): seq<Byte>
    requires off <= |s|
  {
    s[..off] + src + if off + |src| < |s| then s[off + |src|..] else []
  }

  /** filewrite()'s limit on the bytes of one transaction. */
  const FILEWRITE_MAX := (MAXOPBLOCKS - 1 - 1 - 2) / 2 * BSIZE

  // ---- how far writei() has got ----

  /** tot bytes of src are in file i from off on; everything else any file holds is as it was. */
  predicate Progress(b0: Image, n0: seq<Inode>, b: Image, n: seq<Inode>,
                     i: nat, off: nat, src: seq<Byte>, tot: nat)
  {
    && OnlyAddrs(n0, n, i) && tot <= |src| && off + |src| <= MAXBYTES && off <= n0[i].size <= MAXBYTES
    && (forall o :: off <= o < off + tot ==> FileByte(b, n[i], o) == src[o - off])
    && (forall o :: 0 <= o < n0[i].size && !(off <= o < off + tot) ==>
          FileByte(b, n[i], o) == FileByte(b0, n0[i], o))
    && (forall m :: 0 <= m < MAXFILE && (m * BSIZE < n0[i].size || m * BSIZE < off + tot) ==>
          Addr(b, n[i], FileSlot(m)) != 0)
    && (forall j, o :: 0 <= j < |n0| && j != i && 0 <= o < MAXBYTES ==>
          FileByte(b, n[j], o) == FileByte(b0, n0[j], o))
    && (forall j, k :: 0 <= j < |n0| && j != i && 0 <= k < SLOTS ==> Addr(b, n[j], k) == Addr(b0, n0[j], k))
  }

  lemma ProgressStart(b0: Image, n0: seq<Inode>, i: nat, off: nat, src: seq<Byte>)
    requires i < |n0| && HoleFree(b0, n0[i]) && off <= n0[i].size && off + |src| <= MAXBYTES
    ensures Progress(b0, n0, b0, n0, i, off, src, 0)
  {
  }

  /** bmap() does not set writei() back. */
  lemma ProgressMap(sb: Super, b0: Image, n0: seq<Inode>, b: Image, n: seq<Inode>, b1: Image, n1: seq<Inode>,
                    i: nat, off: nat, src: seq<Byte>, tot: nat, k: nat, a: Word)
    requires Progress(b0, n0, b, n, i, off, src, tot) && OwnOk(sb, b, n)
    requires MapStep(sb, b, n, b1, n1, i, k, a)
    ensures Progress(b0, n0, b1, n1, i, off, src, tot)
  {
    hide WordAt, Used, OwnOk, Owned, FileByte, DataKept, Addr;
    forall j, o | 0 <= j < |n| && 0 <= o < MAXBYTES && (j != i || o < n0[i].size || off <= o < off + tot)
      ensures FileByte(b1, n1[j], o) == FileByte(b, n[j], o)
    {
      assert o / BSIZE * BSIZE <= o;
      MapKeepsBytes(sb, b, n, b1, n1, i, k, a, j, o);
    }
    forall m | 0 <= m < MAXFILE && (m * BSIZE < n0[i].size || m * BSIZE < off + tot)
      ensures Addr(b1, n1[i], FileSlot(m)) != 0
    {
      MapKeepsBytes(sb, b, n, b1, n1, i, k, a, i, m * BSIZE);
    }
  }

  /** Copying m bytes into the block that holds offset off + tot takes writei() m bytes further. */
  lemma ProgressStore(sb: Super, b0: Image, n0: seq<Inode>, b: Image, n: seq<Inode>,
                      i: nat, off: nat, src: seq<Byte>, tot: nat, m: nat)
    requires Progress(b0, n0, b, n, i, off, src, tot) && OwnOk(sb, b, n)
    requires tot < |src| && m == Min(|src| - tot, BSIZE - (off + tot) % BSIZE)
    requires Addr(b, n[i], FileSlot((off + tot) / BSIZE)) != 0
    ensures var a := Addr(b, n[i], FileSlot((off + tot) / BSIZE));
            && a < |b|
            && var b' := b[a := Splice(b[a], (off + tot) % BSIZE, src[tot..tot + m])];
               OwnOk(sb, b', n) && Progress(b0, n0, b', n, i, off, src, tot + m)
  {
    hide WordAt, Used, OwnOk, FileByte, Addr;
    var bn, at := (off + tot) / BSIZE, (off + tot) % BSIZE;
    StoreKeeps(sb, b, n, i, bn, ZeroBlock());
    var a := Addr(b, n[i], FileSlot(bn));
    var data := Splice(b[a], at, src[tot..tot + m]);
    StoreKeeps(sb, b, n, i, bn, data);
    var b' := b[a := data];
    forall j, o | 0 <= j < |n| && 0 <= o < MAXBYTES
      ensures FileByte(b', n[j], o) == if j == i && off + tot <= o < off + tot + m then src[o - off]
              else FileByte(b, n[j], o)
    {
      StoreBytes(sb, b, n, i, bn, data, j, o);
      if j == i && o / BSIZE == bn {
        OwnByte(b, n[i], bn, o);
      }
    }
  }

  lemma OwnByte(b: Image, ip: Inode, bn: nat, o: nat)
    requires o < MAXBYTES && o / BSIZE == bn && 0 < Addr(b, ip, FileSlot(bn)) < |b|
    ensures FileByte(b, ip, o) == b[Addr(b, ip, FileSlot(bn))].bytes[o % BSIZE]
  {
  }

  /** The size update that ends writei(): the file reads as src[..tot] written over it at off. */
  lemma WriteFinish(sb: Super, b0: Image, n0: seq<Inode>, b: Image, n: seq<Inode>,
                    i: nat, off: nat, src: seq<Byte>, tot: nat)
    requires Progress(b0, n0, b, n, i, off, src, tot) && OwnOk(sb, b, n)
    requires i < |n0| && |n| == |n0| && off + tot <= MAXBYTES
    requires forall j :: 0 <= j < |n0| ==> HoleFree(b0, n0[j])
    ensures var n' := if off + tot > n[i].size then n[i := n[i].(size := off + tot)] else n;
            && OwnOk(sb, b, n') && (forall j :: 0 <= j < |n'| ==> HoleFree(b, n'[j]))
            && Contents(b, n'[i]) == Overwrite(Contents(b0, n0[i]), off, src[..tot])
            && forall j :: 0 <= j < |n'| && j != i ==> n'[j] == n0[j] && Contents(b, n'[j]) == Contents(b0, n0[j])
  {
    hide Used, WordAt, Addr, FileByte, OwnOk, Overwrite, Contents, Progress;
    ProgressFacts(b0, n0, b, n, i, off, src, tot);
    var size := if off + tot > n[i].size then off + tot else n[i].size;
    SizeKeeps(sb, b, n, i, size);
    var n' := n[i := n[i].(size := size)];
    assert n' == if off + tot > n[i].size then n' else n;
    WrittenContents(b0, n0, b, n, i, off, src, tot, size);
    forall j | 0 <= j < |n'| && j != i
      ensures HoleFree(b, n'[j]) && Contents(b, n'[j]) == Contents(b0, n0[j])
    {
      OtherContents(b0, n0, b, n, i, off, src, tot, j);
    }
  }

  lemma ProgressFacts(b0: Image, n0: seq<Inode>, b: Image, n: seq<Inode>, i: nat, off: nat, src: seq<Byte>, tot: nat)
    requires Progress(b0, n0, b, n, i, off, src, tot)
    ensures OnlyAddrs(n0, n, i) && tot <= |src| && off <= n[i].size == n0[i].size && off + tot <= MAXBYTES
  {
  }

  lemma SizeKeeps(sb: Super, b: Image, n: seq<Inode>, i: nat, size: Word)
    requires OwnOk(sb, b, n) && i < |n|
    ensures OwnOk(sb, b, n[i := n[i].(size := size)])
  {
    hide Used, WordAt;
    var n' := n[i := n[i].(size := size)];
    forall j, k | 0 <= j < |n| && 0 <= k < SLOTS
      ensures Addr(b, n'[j], k) == Addr(b, n[j], k)
    {
    }
    hide Addr;
  }

  lemma SizeKeepsBytes(b: Image, ip: Inode, size: Word, o: nat)
    requires o < MAXBYTES
    ensures FileByte(b, ip.(size := size), o) == FileByte(b, ip, o)
    ensures Addr(b, ip.(size := size), FileSlot(o / BSIZE)) == Addr(b, ip, FileSlot(o / BSIZE))
  {
  }

  lemma WrittenContents(b0: Image, n0: seq<Inode>, b: Image, n: seq<Inode>, i: nat, off: nat, src: seq<Byte>, tot: nat,
                        size: Word)
    requires Progress(b0, n0, b, n, i, off, src, tot)
    requires size == if off + tot > n[i].size then off + tot else n[i].size
    ensures HoleFree(b, n[i].(size := size))
    ensures Contents(b, n[i].(size := size)) == Overwrite(Contents(b0, n0[i]), off, src[..tot])
  {
    hide Addr, FileByte;
    var ip := n[i].(size := size);
    var was, now := Contents(b0, n0[i]), Contents(b, ip);
    var goal := Overwrite(was, off, src[..tot]);
    forall o | 0 <= o < |now|
      ensures now[o] == goal[o]
    {
      SizeKeepsBytes(b, n[i], size, o);
    }
    assert now == goal;
    forall m | 0 <= m < MAXFILE && m * BSIZE < size
      ensures Addr(b, ip, FileSlot(m)) != 0
    {
      SizeKeepsBytes(b, n[i], size, m * BSIZE);
    }
  }

  lemma OtherContents(b0: Image, n0: seq<Inode>, b: Image, n: seq<Inode>, i: nat, off: nat, src: seq<Byte>, tot: nat,
                      j: nat)
    requires Progress(b0, n0, b, n, i, off, src, tot) && j < |n0| && j != i && HoleFree(b0, n0[j])
    ensures HoleFree(b, n[j]) && Contents(b, n[j]) == Contents(b0, n0[j])
  {
  }

  /** iupdate() changes no file. */
  lemma InodeWriteFinish(sb: Super, b: Image, n: seq<Inode>, i: nat, data: Block)
    requires OwnOk(sb, b, n) && i < |n| <= sb.ninodes && sb.IBlock(i) < |b|
    requires forall j :: 0 <= j < |n| ==> HoleFree(b, n[j])
    ensures var b' := b[sb.IBlock(i) := data];
            && OwnOk(sb, b', n)
            && (forall j :: 0 <= j < |n| ==> HoleFree(b', n[j]) && Contents(b', n[j]) == Contents(b, n[j]))
            && (forall c :: 0 <= c < sb.size ==> Used(sb, b', c) == Used(sb, b, c))
  {
    hide WordAt, Addr, FileByte, BitAt, SlotsUsed, SlotsDistinct, MetaUsed;
    InodeBlockKeeps(sb, b, n, i, data);
    var b' := b[sb.IBlock(i) := data];
    forall j | 0 <= j < |n|
      ensures HoleFree(b', n[j]) && Contents(b', n[j]) == Contents(b, n[j])
    {
    }
  }

  lemma FirstBlockMapped(b0: Image, n0: seq<Inode>, b: Image, n: seq<Inode>,
                         i: nat, off: nat, src: seq<Byte>)
    requires Progress(b0, n0, b, n, i, off, src, 0) && |src| > 0 && off % BSIZE != 0
    ensures Addr(b, n[i], FileSlot(off / BSIZE)) != 0
  {
  }

  // ---- what a transaction logs ----

  /** One bmap(): the map blocks it logged (bits), at most one for each block it allocated, the new
      data block, and the indirect block. */
  predicate MapCost(l0: set<nat>, l1: set<nat>, bits: set<nat>, ip0: Inode, ip1: Inode, mapped: bool, a: Word)
  {
    && |bits| <= (if !mapped && a != 0 then 1 else 0)
                 + (if ip0.addrs[NDIRECT] == 0 && ip1.addrs[NDIRECT] != 0 then 1 else 0)
    && l1 <= l0 + bits + (if !mapped && a != 0 then {a as nat} else {}) + IndirectOf(ip1)
    && (ip0.addrs[NDIRECT] != 0 ==> ip1.addrs[NDIRECT] == ip0.addrs[NDIRECT])
    && (mapped ==> l1 == l0)
  }

  lemma CostNone(l: set<nat>, ip: Inode, mapped: bool, a: Word)
    requires mapped || a == 0
    ensures MapCost(l, l, {}, ip, ip, mapped, a)
  {
  }

  lemma CostSlot(l0: set<nat>, l1: set<nat>, ip0: Inode, ip1: Inode, bb: nat, a: Word)
    requires l1 <= l0 + {bb, a} + IndirectOf(ip0) && a != 0 && ip1.addrs[NDIRECT] == ip0.addrs[NDIRECT]
    ensures MapCost(l0, l1, {bb}, ip0, ip1, false, a)
  {
  }

  lemma CostBoth(l0: set<nat>, l1: set<nat>, l2: set<nat>, bits: set<nat>, ip0: Inode, ip1: Inode, ip2: Inode,
                 bb: nat, ind: Word, a: Word)
    requires l1 == l0 + {bb, ind} && ip0.addrs[NDIRECT] == 0 && ip1.addrs[NDIRECT] == ind != 0
    requires MapCost(l1, l2, bits, ip1, ip2, false, a)
    ensures MapCost(l0, l2, bits + {bb}, ip0, ip2, false, a)
  {
  }

  function IndirectOf(ip: Inode): set<nat>
  {
    if ip.addrs[NDIRECT] == 0 then {} else {ip.addrs[NDIRECT] as nat}
  }

  /** The blocks that bytes [off, off + n) touch. */
  function Spanned(off: nat, n: nat): nat
  {
    if n == 0 then 0 else (off + n - 1) / BSIZE - off / BSIZE + 1
  }

  /** writei() after t turns of its loop: data blocks, map blocks, and the indirect block. */
  predicate LoopCost(l0: set<nat>, l: set<nat>, ip0: Inode, ip: Inode, data: set<nat>, bits: set<nat>, t: nat, off: nat)
  {
    && l <= l0 + data + bits + IndirectOf(ip) && |data| <= t
    && |bits| <= t - (if off % BSIZE != 0 && t > 0 then 1 else 0)
                 + (if ip0.addrs[NDIRECT] == 0 && ip.addrs[NDIRECT] != 0 then 1 else 0)
    && (ip0.addrs[NDIRECT] != 0 ==> ip.addrs[NDIRECT] == ip0.addrs[NDIRECT])
  }

  /** writei() is at the start of its turn number t, or done. */
  predicate AtTurn(off: nat, n: nat, tot: nat, t: nat)
  {
    && tot <= n && t <= Spanned(off, n) && (t == 0 ==> tot == 0)
    && (tot < n ==> t == (off + tot) / BSIZE - off / BSIZE)
  }

  lemma NextTurn(off: nat, n: nat, tot: nat, m: nat, t: nat)
    requires AtTurn(off, n, tot, t) && tot < n && m == Min(n - tot, BSIZE - (off + tot) % BSIZE)
    ensures AtTurn(off, n, tot + m, t + 1)
  {
  }

  lemma NoCost(l: set<nat>, ip: Inode, off: nat)
    ensures LoopCost(l, l, ip, ip, {}, {}, 0, off)
  {
  }

  lemma CardUnion(a: set<nat>, b: set<nat>)
    ensures |a + b| <= |a| + |b|
  {
  }

  /** A turn that writes a block: the first turn of an unaligned write finds its block mapped. */
  lemma TurnCost(l0: set<nat>, l: set<nat>, l1: set<nat>, ip0: Inode, ip: Inode, ip1: Inode,
                 data: set<nat>, bits: set<nat>, more: set<nat>, t: nat, off: nat, mapped: bool, a: Word)
    requires LoopCost(l0, l, ip0, ip, data, bits, t, off) && MapCost(l, l1, more, ip, ip1, mapped, a)
    requires a != 0 && (t == 0 && off % BSIZE != 0 ==> mapped)
    ensures LoopCost(l0, l1 + {a}, ip0, ip1, data + {a}, bits + more, t + 1, off)
  {
  }

  /** The last turn, when bmap() found no block: at most the indirect block was allocated. */
  lemma FailCost(l0: set<nat>, l: set<nat>, l1: set<nat>, ip0: Inode, ip: Inode, ip1: Inode,
                 data: set<nat>, bits: set<nat>, more: set<nat>, t: nat, off: nat, mapped: bool)
    requires LoopCost(l0, l, ip0, ip, data, bits, t, off) && MapCost(l, l1, more, ip, ip1, mapped, 0)
    ensures LoopCost(l0, l1, ip0, ip1, data, bits + more, t, off)
  {
  }

  /** All the blocks of one writei() but the inode's, which comes last. */
  lemma WholeCost(l0: set<nat>, l: set<nat>, ip0: Inode, ip: Inode, data: set<nat>, bits: set<nat>,
                  t: nat, off: nat) returns (cost: set<nat>)
    requires LoopCost(l0, l, ip0, ip, data, bits, t, off)
    ensures l <= l0 + cost && |cost| <= 2 * t + 2 - (if off % BSIZE != 0 && t > 0 then 1 else 0)
  {
    cost := data + bits + IndirectOf(ip);
    CardUnion(data, bits);
    CardUnion(data + bits, IndirectOf(ip));
  }

  /** The bytes of [off, off + n) that a file with contents s has; none if the range wraps around. */
  function ReadOf(s: seq<Byte>, off: Word, n: Word): seq<Byte>
  {
    if off > |s| || off + n >= 0x1_0000_0000 then [] else s[off..Min(off + n, |s|)]
  }

  /** Blocks changed only from low on, and only where logged; and no block outside the file system was logged. */
  predicate Logs(sb: Super, low: nat, b0: Image, l0: set<nat>, b1: Image, l1: set<nat>)
  {
    && |b1| == |b0| && l0 <= l1
    && (forall c :: 0 <= c < |b0| && (c < low || c !in l1) ==> b1[c] == b0[c])
    && (forall c :: c in l1 && c !in l0 ==> low <= c < sb.size)
  }

  lemma LogsNothing(sb: Super, low: nat, b: Image, l: set<nat>)
    ensures Logs(sb, low, b, l, b, l)
  {
  }

  lemma LogsOne(sb: Super, low: nat, b: Image, l: set<nat>, c: nat, data: Block)
    requires low <= c < sb.size && c < |b|
    ensures Logs(sb, low, b, l, b[c := data], l + {c})
  {
  }

  lemma LogsThen(sb: Super, low: nat, b0: Image, l0: set<nat>, b1: Image, l1: set<nat>, b2: Image, l2: set<nat>)
    requires Logs(sb, low, b0, l0, b1, l1) && Logs(sb, low, b1, l1, b2, l2)
    ensures Logs(sb, low, b0, l0, b2, l2)
  {
  }

  lemma MapInside(sb: Super, b: Image, c: nat)
    requires LayoutOk(sb, b) && c < sb.size
    ensures sb.bmapstart <= sb.BBlock(c) < sb.size
  {
  }

  lemma SlotAboveMap(sb: Super, b: Image, n: seq<Inode>, i: nat, k: nat)
    requires OwnOk(sb, b, n) && i < |n| && k < SLOTS && Addr(b, n[i], k) != 0
    ensures sb.bmapstart <= Addr(b, n[i], k) < sb.size
  {
    hide Addr, Used;
    assert InData(sb, b, Addr(b, n[i], k));
  }

  /** All inodes on disk are as in memory. */
  predicate InStep(sb: Super, b: Image, n: seq<Inode>)
  {
    forall j :: 0 <= j < |n| ==> sb.IBlock(j) < |b| && GetInode(b[sb.IBlock(j)], j % IPB) == n[j]
  }

  /** iupdate() brings the one inode that changed back in step. */
  lemma UpdateInStep(sb: Super, b0: Image, n0: seq<Inode>, b: Image, n: seq<Inode>, i: nat)
    requires LayoutOk(sb, b) && |b| == |b0| && i < |n| == |n0| <= sb.ninodes && InStep(sb, b0, n0)
    requires (forall j :: 0 <= j < |n| && j != i ==> n[j] == n0[j])
    requires forall c :: 0 <= c < |b| && c < sb.bmapstart ==> b[c] == b0[c]
    ensures sb.IBlock(i) < |b|
    ensures InStep(sb, b[sb.IBlock(i) := PutInode(b[sb.IBlock(i)], i % IPB, n[i], 16)], n)
  {
    hide PutInode, GetInode;
    var ib := sb.IBlock(i);
    var b1 := b[ib := PutInode(b[ib], i % IPB, n[i], 16)];
    forall j | 0 <= j < |n|
      ensures sb.IBlock(j) < |b1| && GetInode(b1[sb.IBlock(j)], j % IPB) == n[j]
    {
      assert sb.IBlock(j) <= sb.IBlock(sb.ninodes);
      if sb.IBlock(j) == ib {
        InodeRoundTrip(b[ib], i % IPB, n[i], j % IPB);
        assert j != i ==> j % IPB != i % IPB;
      }
    }
  }

  lemma LayoutThere(sb: Super, b: Image, n: seq<Inode>)
    requires OwnOk(sb, b, n)
    ensures LayoutOk(sb, b) && forall i :: 0 <= i < sb.ninodes ==> sb.IBlock(i) < sb.bmapstart <= sb.size <= |b|
  {
    hide SlotsUsed, SlotsDistinct, MetaUsed;
    assert sb.bmapstart <= sb.BBlock(sb.size);
  }

  lemma UpdateInside(sb: Super, b0: Image, l0: set<nat>, b: Image, l: set<nat>, c: nat, data: Block)
    requires Logs(sb, sb.bmapstart, b0, l0, b, l) && sb.inodestart <= c < sb.bmapstart <= sb.size && c < |b|
    ensures Logs(sb, sb.inodestart, b0, l0, b[c := data], l + {c})
  {
  }

  lemma UpdateLogs(sb: Super, b0: Image, l0: set<nat>, b: Image, l: set<nat>, n: seq<Inode>, i: nat)
    requires Logs(sb, sb.bmapstart, b0, l0, b, l) && OwnOk(sb, b, n) && i < |n| <= sb.ninodes
    ensures sb.IBlock(i) < |b|
    ensures Logs(sb, sb.inodestart, b0, l0, b[sb.IBlock(i) := PutInode(b[sb.IBlock(i)], i % IPB, n[i], 16)],
                 l + {sb.IBlock(i)})
  {
    hide SlotsUsed, SlotsDistinct, MetaUsed, PutInode, Logs, OwnOk;
    LayoutThere(sb, b, n);
    UpdateInside(sb, b0, l0, b, l, sb.IBlock(i), PutInode(b[sb.IBlock(i)], i % IPB, n[i], 16));
  }

  lemma TruncInStep(sb: Super, b0: Image, l0: set<nat>, n0: seq<Inode>, b: Image, l: set<nat>, n: seq<Inode>, i: nat)
    requires Logs(sb, sb.bmapstart, b0, l0, b, l) && OwnOk(sb, b, n) && i < |n| == |n0| <= sb.ninodes
    requires forall j :: 0 <= j < |n| && j != i ==> n[j] == n0[j]
    ensures sb.IBlock(i) < |b|
    ensures InStep(sb, b0, n0) ==>
              InStep(sb, b[sb.IBlock(i) := PutInode(b[sb.IBlock(i)], i % IPB, n[i], 16)], n)
  {
    hide SlotsUsed, SlotsDistinct, MetaUsed, PutInode, GetInode, InStep, OwnOk;
    LayoutThere(sb, b, n);
    if InStep(sb, b0, n0) {
      UpdateInStep(sb, b0, n0, b, n, i);
    }
  }

  lemma StillInStep(sb: Super, b0: Image, l0: set<nat>, n0: seq<Inode>, b: Image, l: set<nat>, m: seq<Inode>,
                    n: seq<Inode>, i: nat, off: nat, src: seq<Byte>, tot: nat)
    requires Logs(sb, sb.bmapstart, b0, l0, b, l) && OwnOk(sb, b, n) && InStep(sb, b0, n0) && |n| <= sb.ninodes
    requires Progress(b0, n0, b, m, i, off, src, tot) && |n| == |m|
    requires forall j :: 0 <= j < |n| && j != i ==> n[j] == m[j]
    ensures sb.IBlock(i) < |b|
    ensures InStep(sb, b[sb.IBlock(i) := PutInode(b[sb.IBlock(i)], i % IPB, n[i], 16)], n)
  {
    hide SlotsUsed, SlotsDistinct, MetaUsed, PutInode, GetInode, InStep;
    ProgressFacts(b0, n0, b, m, i, off, src, tot);
    UpdateInStep(sb, b0, n0, b, n, i);
  }

  class FileSys {
    const sb: Super
    /** Disk contents as bread() shows them, and the in-memory inodes by inode number. */
    var blocks: Image
    var inodes: seq<Inode>
    /** The blocks log_write() has been called on. */
    ghost var logged: set<nat>

    ghost predicate Valid()
      reads this
    {
      OwnOk(sb, blocks, inodes)
    }

    constructor (sb: Super, blocks: Image, inodes: seq<Inode>)
      ensures this.sb == sb && this.blocks == blocks && this.inodes == inodes && logged == {}
    {
      this.sb, this.blocks, this.inodes, logged := sb, blocks, inodes, {};
    }

    /** bread(), change the data, log_write(), brelse(). */
    method LogWrite(bn: nat, data: Block)
      requires bn < |blocks|
      modifies this`blocks, this`logged
      ensures blocks == old(blocks)[bn := data] && logged == old(logged) + {bn}
    {
      blocks := blocks[bn := data];
      logged := logged + {bn};
    }

    /** balloc(): the lowest-numbered free block, marked in use and zeroed, or 0 if none is free. */
    method Balloc() returns (r: Word)
      requires LayoutOk(sb, blocks) && MetaUsed(sb, blocks)
      modifies this`blocks, this`logged
      ensures r == 0 ==> blocks == old(blocks) && logged == old(logged)
      ensures r == 0 ==> forall c :: 0 <= c < sb.size ==> Used(sb, blocks, c)
      ensures r != 0 ==> r < sb.size && !Used(sb, old(blocks), r)
      ensures r != 0 ==> forall c :: 0 <= c < r ==> Used(sb, old(blocks), c)
      ensures r != 0 ==> blocks == Allocate(sb, old(blocks), r)
      ensures r != 0 ==> logged == old(logged) + {sb.BBlock(r), r}
      ensures Logs(sb, sb.bmapstart, old(blocks), old(logged), blocks, logged)
    {
      hide Allocate, Used, Logs;
      LogsNothing(sb, sb.bmapstart, blocks, logged);
      var b := 0;
      while b < sb.size
        invariant b % BPB == 0 && blocks == old(blocks) && logged == old(logged)
        invariant forall c :: 0 <= c < b && c < sb.size ==> Used(sb, blocks, c)
      {
        var bi := ScanMapBlock(b);
        if bi < BPB && b + bi < sb.size {
          MapBelowData(b + bi);
          Take(b + bi);
          return b + bi;
        }
        b := b + BPB;
      }
      r := 0;
    }

    /** The inner loop of balloc() over the bits of one block of the free map. */
    method ScanMapBlock(b: nat) returns (bi: nat)
      requires LayoutOk(sb, blocks) && b < sb.size && b % BPB == 0
      ensures bi <= BPB && (bi < BPB && b + bi < sb.size ==> !Used(sb, blocks, b + bi))
      ensures forall c :: b <= c < b + bi && c < sb.size ==> Used(sb, blocks, c)
      ensures bi == BPB || b + bi >= sb.size || !Used(sb, blocks, b + bi)
    {
      hide BitAt;
      var bp := blocks[sb.BBlock(b)];
      bi := 0;
      while bi < BPB && b + bi < sb.size
        invariant 0 <= bi <= BPB
        invariant forall c :: b <= c < b + bi && c < sb.size ==> Used(sb, blocks, c)
      {
        assert sb.BBlock(b + bi) == sb.BBlock(b) && (b + bi) % BPB == bi;
        if !BitAt(bp, bi) {
          return;
        }
        bi := bi + 1;
      }
    }

    lemma MapBelowData(b: nat)
      requires LayoutOk(sb, blocks) && MetaUsed(sb, blocks) && b < sb.size && !Used(sb, blocks, b)
      ensures sb.bmapstart <= b
    {
      hide Used;
    }

    /** balloc() once it has found b free: mark it and bzero() it. */
    method Take(b: nat)
      requires LayoutOk(sb, blocks) && sb.bmapstart <= b < sb.size
      modifies this`blocks, this`logged
      ensures blocks == Allocate(sb, old(blocks), b)
      ensures logged == old(logged) + {sb.BBlock(b), b}
      ensures Logs(sb, sb.bmapstart, old(blocks), old(logged), blocks, logged)
    {
      hide Logs;
      ghost var b0, l0 := blocks, logged;
      var m := sb.BBlock(b);
      MapInside(sb, blocks, b);
      LogsOne(sb, sb.bmapstart, b0, l0, m, PutBit(b0[m], b % BPB, true));
      LogWrite(m, PutBit(blocks[m], b % BPB, true));
      ghost var b1, l1 := blocks, logged;
      LogsOne(sb, sb.bmapstart, b1, l1, b, ZeroBlock());
      LogWrite(b, ZeroBlock());
      LogsThen(sb, sb.bmapstart, b0, l0, b1, l1, blocks, logged);
    }

    /** bfree(); false is the "freeing free block" panic. */
    method Bfree(b: nat) returns (ok: bool)
      requires LayoutOk(sb, blocks) && b < sb.size
      modifies this`blocks, this`logged
      ensures ok == Used(sb, old(blocks), b)
      ensures blocks == if ok then Mark(sb, old(blocks), b, false) else old(blocks)
      ensures logged == if ok then old(logged) + {sb.BBlock(b)} else old(logged)
      ensures Logs(sb, sb.bmapstart, old(blocks), old(logged), blocks, logged)
    {
      hide Logs;
      var m := sb.BBlock(b);
      LogsNothing(sb, sb.bmapstart, blocks, logged);
      if !BitAt(blocks[m], b % BPB) {
        return false;
      }
      MapInside(sb, blocks, b);
      LogsOne(sb, sb.bmapstart, blocks, logged, m, PutBit(blocks[m], b % BPB, false));
      LogWrite(m, PutBit(blocks[m], b % BPB, false));
      ok := true;
    }

    lemma DataAboveMap(b: Image, a: nat)
      requires LayoutOk(sb, b) && InData(sb, b, a)
      ensures sb.bmapstart <= a < sb.size
    {
      hide Used;
    }

    /** Allocate a block into an empty slot; 0, and no change, if the disk is full. */
    method AllocSlot(i: nat, k: nat) returns (a: Word)
      requires Valid() && i < |inodes| && k < SLOTS && Addr(blocks, inodes[i], k) == 0
      requires k > NDIRECT ==> inodes[i].addrs[NDIRECT] != 0
      modifies this
      ensures Valid()
      ensures a == 0 ==> blocks == old(blocks) && inodes == old(inodes) && logged == old(logged)
      ensures a == 0 ==> forall c :: 0 <= c < sb.size ==> Used(sb, blocks, c)
      ensures a != 0 ==> AllocStep(sb, old(blocks), old(inodes), blocks, inodes, i, k, a)
      ensures a != 0 ==> logged == old(logged) + {sb.BBlock(a), a}
                                   + if k > NDIRECT then {old(inodes[i]).addrs[NDIRECT]} else {}
      ensures Logs(sb, sb.bmapstart, old(blocks), old(logged), blocks, logged)
    {
      hide MetaUsed, SlotsUsed, SlotsDistinct, Addr, Used, Allocate, AllocStep, Logs;
      ghost var b0, n0, l0 := blocks, inodes, logged;
      a := Balloc();
      if a != 0 {
        AllocStepHolds(sb, b0, n0, i, k, a);
        if k <= NDIRECT {
          inodes := inodes[i := inodes[i].(addrs := inodes[i].addrs[k := a])];
        } else {
          IndirectIsData(sb, b0, n0, i);
          var ind := inodes[i].addrs[NDIRECT];
          ghost var b1, l1 := blocks, logged;
          DataAboveMap(b0, ind);
          LogsOne(sb, sb.bmapstart, b1, l1, ind, PutWord(b1[ind], k - NDIRECT - 1, a));
          LogWrite(ind, PutWord(blocks[ind], k - NDIRECT - 1, a));
          LogsThen(sb, sb.bmapstart, b0, l0, b1, l1, blocks, logged);
        }
        assert inodes == n0[i := SetInode(n0[i], k, a)];
        assert blocks == SetBlocks(Allocate(sb, b0, a), n0[i], k, a);
      }
    }

    /** bmap(): the address of file block bn, allocating it and the indirect block as needed;
        0 if the disk is full. The source panics for bn >= MAXFILE. */
    method Bmap(i: nat, bn: nat) returns (addr: Word, ghost bits: set<nat>)
      requires Valid() && i < |inodes| && bn < MAXFILE
      modifies this
      ensures MapStep(sb, old(blocks), old(inodes), blocks, inodes, i, FileSlot(bn), addr) && Valid()
      ensures MapCost(old(logged), logged, bits, old(inodes[i]), inodes[i],
                      old(Addr(blocks, inodes[i], FileSlot(bn))) != 0, addr)
      ensures Logs(sb, sb.bmapstart, old(blocks), old(logged), blocks, logged)
    {
      hide OwnOk, SlotsUsed, SlotsDistinct, MetaUsed, Used, WordAt, MapStep, AllocStep, MapCost, IndirectOf, Logs;
      ghost var b0, n0, l0 := blocks, inodes, logged;
      LogsNothing(sb, sb.bmapstart, b0, l0);
      ghost var k := FileSlot(bn);
      bits := {};
      if bn < NDIRECT {
        addr := inodes[i].addrs[bn];
        if addr == 0 {
          addr := AllocSlot(i, bn);
          if addr != 0 {
            bits := {sb.BBlock(addr)};
            MapDirect(sb, b0, n0, blocks, inodes, i, k, addr);
            SlotFilled(sb, b0, n0, blocks, inodes, i, k, addr);
            CostSlot(l0, logged, n0[i], inodes[i], sb.BBlock(addr), addr);
            return;
          }
        }
        MapNothing(sb, b0, n0, i, k);
        CostNone(l0, n0[i], addr != 0, addr);
        return;
      }
      if inodes[i].addrs[NDIRECT] == 0 {
        var ind := AllocSlot(i, NDIRECT);
        if ind == 0 {
          MapNothing(sb, b0, n0, i, k);
          CostNone(l0, n0[i], false, 0);
          return 0, {};
        }
        ghost var b1, n1, l1 := blocks, inodes, logged;
        SlotFilled(sb, b0, n0, b1, n1, i, NDIRECT, ind);
        StillEmpty(sb, b0, n0, b1, n1, i, k, ind);
        addr, bits := IndirectEntry(i, bn);
        LogsThen(sb, sb.bmapstart, b0, l0, b1, l1, blocks, logged);
        MapBoth(sb, b0, n0, b1, n1, blocks, inodes, i, k, ind, addr);
        MapFacts(sb, b0, n0, blocks, inodes, i, k, addr);
        CostBoth(l0, l1, logged, bits, n0[i], n1[i], inodes[i], sb.BBlock(ind), ind, addr);
        bits := bits + {sb.BBlock(ind)};
      } else {
        addr, bits := IndirectEntry(i, bn);
      }
    }

    /** bmap() once the indirect block exists. */
    method IndirectEntry(i: nat, bn: nat) returns (addr: Word, ghost bits: set<nat>)
      requires Valid() && i < |inodes| && NDIRECT <= bn < MAXFILE && inodes[i].addrs[NDIRECT] != 0
      modifies this
      ensures MapStep(sb, old(blocks), old(inodes), blocks, inodes, i, FileSlot(bn), addr) && Valid()
      ensures MapCost(old(logged), logged, bits, old(inodes[i]), inodes[i],
                      old(Addr(blocks, inodes[i], FileSlot(bn))) != 0, addr)
      ensures Logs(sb, sb.bmapstart, old(blocks), old(logged), blocks, logged)
    {
      hide SlotsUsed, SlotsDistinct, MetaUsed, Used, WordAt, MapStep, AllocStep, MapCost, Logs;
      ghost var b0, n0, l0 := blocks, inodes, logged;
      LogsNothing(sb, sb.bmapstart, b0, l0);
      ghost var k := FileSlot(bn);
      IndirectIsData(sb, b0, n0, i);
      var a := blocks[inodes[i].addrs[NDIRECT]];
      addr, bits := WordAt(a, bn - NDIRECT), {};
      if addr == 0 {
        addr := AllocSlot(i, bn + 1);
        if addr != 0 {
          bits := {sb.BBlock(addr)};
          MapDirect(sb, b0, n0, blocks, inodes, i, k, addr);
          SlotFilled(sb, b0, n0, blocks, inodes, i, k, addr);
          CostSlot(l0, logged, n0[i], inodes[i], sb.BBlock(addr), addr);
          return;
        }
      }
      MapNothing(sb, b0, n0, i, k);
      CostNone(l0, n0[i], addr != 0, addr);
    }

    /** Every file is hole-free. */
    ghost predicate FilesOk()
      reads this
    {
      |inodes| <= sb.ninodes && forall j :: 0 <= j < |inodes| ==> HoleFree(blocks, inodes[j])
    }

    /** iupdate(): store the in-memory inode in its place on disk. */
    method Iupdate(i: nat)
      requires Valid() && i < |inodes| <= sb.ninodes
      modifies this`blocks, this`logged
      ensures sb.IBlock(i) < |old(blocks)| && logged == old(logged) + {sb.IBlock(i)}
      ensures var ib := sb.IBlock(i);
              blocks == old(blocks)[ib := PutInode(old(blocks)[ib], i % IPB, inodes[i], 16)]
      ensures GetInode(blocks[sb.IBlock(i)], i % IPB) == inodes[i]
    {
      hide SlotsUsed, SlotsDistinct, MetaUsed, WordAt, PutInode, GetInode;
      var ib := sb.IBlock(i);
      InodeRoundTrip(blocks[ib], i % IPB, inodes[i], i % IPB);
      LogWrite(ib, PutInode(blocks[ib], i % IPB, inodes[i], 16));
    }

    /** writei() with a source that can be read: -1, and no change, if the range is out of bounds;
        otherwise the first r bytes of src are written over the file at off, all of them unless the
        disk is full. The last log_write() is for the inode; cost bounds the blocks of those before it. */
    method Writei(i: nat, off: Word, src: seq<Byte>) returns (r: int, ghost before: set<nat>, ghost cost: set<nat>)
      requires Valid() && FilesOk() && i < |inodes| && |src| < 0x1_0000_0000
      modifies this
      ensures Valid() && FilesOk() && |inodes| == |old(inodes)|
      ensures r == -1 <==> off > old(inodes[i]).size || off + |src| > MAXBYTES
      ensures r == -1 ==> blocks == old(blocks) && inodes == old(inodes) && logged == old(logged)
      ensures -1 <= r <= |src|
      ensures r >= 0 ==> Contents(blocks, inodes[i]) == Overwrite(old(Contents(blocks, inodes[i])), off, src[..r])
      ensures 0 <= r < |src| ==> forall c :: 0 <= c < sb.size ==> Used(sb, blocks, c)
      ensures r >= 0 ==> sb.IBlock(i) < |blocks| && GetInode(blocks[sb.IBlock(i)], i % IPB) == inodes[i]
      ensures forall j :: 0 <= j < |inodes| && j != i ==>
                inodes[j] == old(inodes)[j] && Contents(blocks, inodes[j]) == old(Contents(blocks, inodes[j]))
      ensures logged == if r == -1 then before else before + {sb.IBlock(i)}
      ensures before <= old(logged) + cost
      ensures |cost| <= 2 * Spanned(off, |src|) + 2 - (if off % BSIZE != 0 && |src| > 0 then 1 else 0)
      ensures Logs(sb, sb.inodestart, old(blocks), old(logged), blocks, logged)
      ensures old(InStep(sb, blocks, inodes)) ==> InStep(sb, blocks, inodes)
    {
      hide OwnOk, Addr, FileByte, Used, HoleFree, Contents, PutInode, GetInode, Progress, LoopCost, Overwrite;
      hide Logs, InStep;
      LogsNothing(sb, sb.inodestart, blocks, logged);
      before, cost := logged, {};
      var n := |src|;
      if off > inodes[i].size || (off + n) % 0x1_0000_0000 < off {
        WrapMeansTooBig(i, off, n);
        return -1, before, {};
      }
      if off + n > MAXBYTES {
        return -1, before, {};
      }
      ghost var b0, n0 := blocks, inodes;
      var tot;
      ghost var data, bits, t;
      tot, data, bits, t := WriteLoop(i, off, src);
      ghost var b, m := blocks, inodes;
      if off + tot > inodes[i].size {
        inodes := inodes[i := inodes[i].(size := off + tot)];
      }
      WriteFinish(sb, b0, n0, b, m, i, off, src, tot);
      cost := WholeCost(old(logged), logged, n0[i], m[i], data, bits, t, off);
      before := logged;
      if InStep(sb, b0, n0) {
        StillInStep(sb, b0, old(logged), n0, b, before, m, inodes, i, off, src, tot);
      }
      UpdateLogs(sb, b0, old(logged), b, before, inodes, i);
      Iupdate(i);
      InodeWriteFinish(sb, b, inodes, i, blocks[sb.IBlock(i)]);
      r := tot;
    }

    /** The loop of writei(). */
    method WriteLoop(i: nat, off: Word, src: seq<Byte>)
      returns (tot: nat, ghost data: set<nat>, ghost bits: set<nat>, ghost t: nat)
      requires Valid() && FilesOk() && i < |inodes| && off <= inodes[i].size && off + |src| <= MAXBYTES
      modifies this
      ensures Valid() && Progress(old(blocks), old(inodes), blocks, inodes, i, off, src, tot)
      ensures tot < |src| ==> forall c :: 0 <= c < sb.size ==> Used(sb, blocks, c)
      ensures LoopCost(old(logged), logged, old(inodes[i]), inodes[i], data, bits, t, off)
      ensures t <= Spanned(off, |src|) && (t == 0 ==> tot == 0) && tot <= |src|
      ensures |inodes| == |old(inodes)| && inodes[i].size == old(inodes[i]).size
      ensures Logs(sb, sb.bmapstart, old(blocks), old(logged), blocks, logged)
    {
      hide OwnOk, Addr, FileByte, Used, Contents, MapCost, MapStep, Progress, LoopCost, HoleFree, Spanned, Min, Logs;
      ghost var b0, n0 := blocks, inodes;
      LogsNothing(sb, sb.bmapstart, blocks, logged);
      ProgressStart(b0, n0, i, off, src);
      tot, data, bits, t := 0, {}, {}, 0;
      NoCost(logged, inodes[i], off);
      while tot < |src|
        invariant Valid() && |inodes| == |n0| && inodes[i].size == n0[i].size
        invariant Progress(b0, n0, blocks, inodes, i, off, src, tot)
        invariant LoopCost(old(logged), logged, n0[i], inodes[i], data, bits, t, off)
        invariant AtTurn(off, |src|, tot, t)
        invariant Logs(sb, sb.bmapstart, b0, old(logged), blocks, logged)
        decreases |src| - tot
      {
        ghost var b, n, l := blocks, inodes, logged;
        ghost var mapped := Addr(blocks, inodes[i], FileSlot((off + tot) / BSIZE)) != 0;
        if t == 0 && off % BSIZE != 0 {
          FirstBlockMapped(b0, n0, blocks, n, i, off, src);
        }
        var addr, m;
        ghost var more, l1;
        addr, m, more, l1 := WriteTurn(i, off, src, tot, b0, n0);
        LogsThen(sb, sb.bmapstart, b0, old(logged), b, l, blocks, logged);
        if addr == 0 {
          FailCost(old(logged), l, logged, n0[i], n[i], inodes[i], data, bits, more, t, off, mapped);
          bits := bits + more;
          return;
        }
        TurnCost(old(logged), l, l1, n0[i], n[i], inodes[i], data, bits, more, t, off, mapped, addr);
        NextTurn(off, |src|, tot, m, t);
        data, bits, t := data + {addr as nat}, bits + more, t + 1;
        tot := tot + m;
      }
    }

    /** One turn of writei()'s loop; addr is 0 when bmap() found the disk full. */
    method WriteTurn(i: nat, off: Word, src: seq<Byte>, tot: nat, ghost b0: Image, ghost n0: seq<Inode>)
      returns (addr: Word, m: nat, ghost more: set<nat>, ghost l1: set<nat>)
      requires Valid() && i < |inodes| == |n0| && inodes[i].size == n0[i].size && off + |src| <= MAXBYTES
      requires tot < |src| && Progress(b0, n0, blocks, inodes, i, off, src, tot)
      modifies this
      ensures Valid() && |inodes| == |n0| && inodes[i].size == n0[i].size
      ensures m == Min(|src| - tot, BSIZE - (off + tot) % BSIZE) && m > 0
      ensures MapCost(old(logged), l1, more, old(inodes[i]), inodes[i],
                      old(Addr(blocks, inodes[i], FileSlot((off + tot) / BSIZE))) != 0, addr)
      ensures addr == 0 ==> logged == l1 && Progress(b0, n0, blocks, inodes, i, off, src, tot)
      ensures addr == 0 ==> forall c :: 0 <= c < sb.size ==> Used(sb, blocks, c)
      ensures addr != 0 ==> logged == l1 + {addr as nat} && tot + m <= |src|
      ensures addr != 0 ==> Progress(b0, n0, blocks, inodes, i, off, src, tot + m)
      ensures Logs(sb, sb.bmapstart, old(blocks), old(logged), blocks, logged)
    {
      hide OwnOk, Addr, FileByte, Used, Contents, MapCost, MapStep, Progress, HoleFree, Logs;
      var o := off + tot;
      ghost var b, n, l := blocks, inodes, logged;
      addr, more := Bmap(i, o / BSIZE);
      l1 := logged;
      MapFacts(sb, b, n, blocks, inodes, i, FileSlot(o / BSIZE), addr);
      ProgressMap(sb, b0, n0, b, n, blocks, inodes, i, off, src, tot, FileSlot(o / BSIZE), addr);
      m := Min(|src| - tot, BSIZE - o % BSIZE);
      if addr != 0 {
        ProgressStore(sb, b0, n0, blocks, inodes, i, off, src, tot, m);
        ghost var b1 := blocks;
        SlotAboveMap(sb, b1, inodes, i, FileSlot(o / BSIZE));
        LogsOne(sb, sb.bmapstart, b1, l1, addr, Splice(b1[addr], o % BSIZE, src[tot..tot + m]));
        LogWrite(addr, Splice(blocks[addr], o % BSIZE, src[tot..tot + m]));
        LogsThen(sb, sb.bmapstart, b, l, b1, l1, blocks, logged);
      }
    }

    lemma WrapMeansTooBig(i: nat, off: Word, n: nat)
      requires FilesOk() && i < |inodes| && n < 0x1_0000_0000
      ensures (off + n) % 0x1_0000_0000 < off <==> off + n >= 0x1_0000_0000
    {
    }

    /** readi() with a destination that can be written: the bytes of the file in the range, as far
        as it has them; no block is allocated, though bmap() could. */
    method Readi(i: nat, off: Word, n: Word) returns (dst: seq<Byte>)
      requires Valid() && FilesOk() && i < |inodes|
      modifies this
      ensures blocks == old(blocks) && inodes == old(inodes) && logged == old(logged)
      ensures dst == ReadOf(Contents(blocks, inodes[i]), off, n)
    {
      hide OwnOk, Addr, FileByte, MapStep, Contents;
      if off > inodes[i].size || (off + n) % 0x1_0000_0000 < off {
        return [];
      }
      var len := if off + n > inodes[i].size then inodes[i].size - off else n;
      dst := [];
      while |dst| < len
        invariant |dst| <= len && blocks == old(blocks) && inodes == old(inodes) && logged == old(logged)
        invariant dst == Contents(blocks, inodes[i])[off..off + |dst|]
        decreases len - |dst|
      {
        var part := ReadTurn(i, off + |dst|, len - |dst|);
        ReadGrows(Contents(blocks, inodes[i]), off, dst, part);
        dst := dst + part;
      }
    }

    static lemma ReadGrows(s: seq<Byte>, off: nat, dst: seq<Byte>, part: seq<Byte>)
      requires off + |dst| + |part| <= |s| && dst == s[off..off + |dst|]
      requires part == s[off + |dst|..off + |dst| + |part|]
      ensures dst + part == s[off..off + |dst + part|]
    {
    }

    /** One turn of readi()'s loop, on a range inside the file. */
    method ReadTurn(i: nat, o: nat, left: nat) returns (part: seq<Byte>)
      requires Valid() && FilesOk() && i < |inodes| && 0 < left && o + left <= inodes[i].size
      modifies this
      ensures blocks == old(blocks) && inodes == old(inodes) && logged == old(logged)
      ensures 0 < |part| <= left && part == Contents(blocks, inodes[i])[o..o + |part|]
    {
      hide OwnOk, Addr, MetaUsed;
      var addr;
      ghost var bits;
      BlockMapped(blocks, inodes[i], o);
      addr, bits := Bmap(i, o / BSIZE);
      var m := Min(left, BSIZE - o % BSIZE);
      part := blocks[addr].bytes[o % BSIZE..o % BSIZE + m];
      var s := Contents(blocks, inodes[i]);
      forall x | 0 <= x < m
        ensures part[x] == s[o + x]
      {
        assert (o + x) / BSIZE == o / BSIZE && (o + x) % BSIZE == o % BSIZE + x;
      }
    }

    /** One transaction of filewrite(), from begin_op() to end_op(): it logs at most MAXOPBLOCKS
        blocks, whatever the size of the free map, and fewer before its last log_write(). */
    method WriteTransaction(i: nat, off: Word, src: seq<Byte>) returns (r: int, ghost before: set<nat>)
      requires Valid() && FilesOk() && i < |inodes| && |src| <= FILEWRITE_MAX
      modifies this
      ensures Valid() && FilesOk() && |inodes| == |old(inodes)| && |logged| <= MAXOPBLOCKS
      ensures r == -1 <==> off > old(inodes[i]).size || off + |src| > MAXBYTES
      ensures |before| < MAXOPBLOCKS && logged == if r == -1 then before else before + {sb.IBlock(i)}
      ensures Logs(sb, sb.inodestart, old(blocks), {}, blocks, logged)
      ensures old(InStep(sb, blocks, inodes)) ==> InStep(sb, blocks, inodes)
      ensures r == -1 ==> blocks == old(blocks) && inodes == old(inodes)
      ensures -1 <= r <= |src|
      ensures r >= 0 ==> Contents(blocks, inodes[i]) == Overwrite(old(Contents(blocks, inodes[i])), off, src[..r])
      ensures 0 <= r < |src| ==> forall c :: 0 <= c < sb.size ==> Used(sb, blocks, c)
      ensures forall j :: 0 <= j < |inodes| && j != i ==>
                inodes[j] == old(inodes)[j] && Contents(blocks, inodes[j]) == old(Contents(blocks, inodes[j]))
    {
      hide OwnOk, Used, Addr, FileByte, Contents, Overwrite, Spanned, GetInode, Logs, InStep;
      logged := {};
      ghost var cost;
      r, before, cost := Writei(i, off, src);
      ThreeBlocksFit(off, |src|);
      SubsetSize(before, cost);
      CardUnion(before, {sb.IBlock(i)});
    }

    /** A write, and then a read of any range of any file: what was written is read back, and all else reads
        as before. */
    method WriteThenRead(i: nat, off: Word, src: seq<Byte>, j: nat, o: Word, n: Word) returns (r: int, dst: seq<Byte>)
      requires Valid() && FilesOk() && i < |inodes| && j < |inodes| && |src| < 0x1_0000_0000
      modifies this
      ensures Valid() && FilesOk() && |inodes| == |old(inodes)| && -1 <= r <= |src|
      ensures j != i || r == -1 ==> dst == ReadOf(old(Contents(blocks, inodes[j])), o, n)
      ensures j == i && r == n && o == off ==> dst == src[..r]
      ensures j == i && r >= 0 && (o + n <= off || off + r <= o) && o + n <= old(inodes[i]).size ==>
                dst == ReadOf(old(Contents(blocks, inodes[i])), o, n)
    {
      hide OwnOk, Used, Addr, FileByte, Contents, Overwrite, Spanned, GetInode, ReadOf;
      ghost var s0 := Contents(blocks, inodes[i]);
      ghost var before, cost;
      r, before, cost := Writei(i, off, src);
      dst := Readi(j, o, n);
      if j == i && r >= 0 {
        ReadOverwritten(s0, off, src[..r], o, n);
      }
    }

    /** filewrite() on an inode: src is written at off in transactions; w bytes arrive, all of them
        if the result is their number, and the new offset is behind them. */
    method FileWrite(i: nat, off: Word, src: seq<Byte>) returns (ret: int, off': Word, ghost w: nat)
      requires Valid() && FilesOk() && i < |inodes| && |src| < 0x8000_0000
      modifies this
      ensures Valid() && FilesOk() && |inodes| == |old(inodes)| && w <= |src| && off' == off + w
      ensures ret == if w == |src| then w else -1
      ensures w == 0 || off <= old(inodes[i]).size
      ensures off <= old(inodes[i]).size ==>
                Contents(blocks, inodes[i]) == Overwrite(old(Contents(blocks, inodes[i])), off, src[..w])
      ensures w < |src| ==> || off > old(inodes[i]).size || off + |src| > MAXBYTES
                            || forall c :: 0 <= c < sb.size ==> Used(sb, blocks, c)
      ensures forall j :: 0 <= j < |inodes| && j != i ==>
                inodes[j] == old(inodes)[j] && Contents(blocks, inodes[j]) == old(Contents(blocks, inodes[j]))
      ensures old(InStep(sb, blocks, inodes)) ==> InStep(sb, blocks, inodes)
    {
      hide OwnOk, Used, Addr, FileByte, Contents, Overwrite, Logs, InStep;
      var n, k := |src|, 0;
      off', w := off, 0;
      ghost var s0 := Contents(blocks, inodes[i]);
      if off <= |s0| {
        OverwriteNothing(s0, off);
        assert src[..0] == [];
      }
      while k < n
        invariant 0 <= k == w <= n && off' == off + w
        invariant Valid() && FilesOk() && |inodes| == |old(inodes)|
        invariant w == 0 || off <= |s0|
        invariant off <= |s0| ==> Contents(blocks, inodes[i]) == Overwrite(s0, off, src[..w]) && off' <= inodes[i].size
        invariant off > |s0| ==> inodes[i].size == |s0|
        invariant old(InStep(sb, blocks, inodes)) ==> InStep(sb, blocks, inodes)
        invariant forall j :: 0 <= j < |inodes| && j != i ==>
          inodes[j] == old(inodes)[j] && Contents(blocks, inodes[j]) == old(Contents(blocks, inodes[j]))
        decreases n - k
      {
        var n1 := Min(n - k, FILEWRITE_MAX);
        var r;
        ghost var before;
        r, before := WriteTransaction(i, off', src[k..k + n1]);
        if r >= 0 {
          OverwriteLength(s0, off, src[..w]);
          OverwriteTwice(s0, off, src[..w], src[k..k + n1][..r]);
          assert src[..w] + src[k..k + n1][..r] == src[..w + r];
          OverwriteLength(s0, off, src[..w + r]);
        }
        if r > 0 {
          off', w := off' + r, w + r;
        }
        if r != n1 {
          break;
        }
        k := k + r;
      }
      ret := if k == n then n else -1;
    }

    /** itrunc(): every block the file owns becomes free, no other does, and bfree() never panics. */
    method Itrunc(i: nat)
      requires Valid() && i < |inodes| <= sb.ninodes
      modifies this
      ensures Valid() && inodes == old(inodes)[i := old(inodes[i]).(size := 0, addrs := NO_ADDRS)]
      ensures |blocks| == |old(blocks)| && sb.size <= |blocks|
      ensures forall c :: 0 <= c < sb.size ==>
                Used(sb, blocks, c) == (Used(sb, old(blocks), c) && !OwnedIn(old(blocks), old(inodes[i]), c))
      ensures forall c :: sb.DataStart() <= c < sb.size ==> blocks[c] == old(blocks)[c]
      ensures sb.IBlock(i) < |blocks| && GetInode(blocks[sb.IBlock(i)], i % IPB) == inodes[i]
      ensures forall j :: 0 <= j < |inodes| && j != i && inodes[j].size <= MAXBYTES ==>
                Contents(blocks, inodes[j]) == Contents(old(blocks), inodes[j])
      ensures old(FilesOk()) ==> FilesOk()
      ensures Logs(sb, sb.inodestart, old(blocks), old(logged), blocks, logged)
      ensures old(InStep(sb, blocks, inodes)) ==> InStep(sb, blocks, inodes)
    {
      hide OwnOk, Used, Addr, OwnedIn, GetInode, PutInode, HoleFree, Contents, Logs, InStep;
      ghost var b0, n0, l0 := blocks, inodes, logged;
      FreeBlocks(i);
      SizeKeeps(sb, blocks, inodes, i, 0);
      inodes := inodes[i := inodes[i].(size := 0)];
      ghost var b := blocks;
      UpdateLogs(sb, b0, l0, b, logged, inodes, i);
      TruncInStep(sb, b0, l0, n0, b, logged, inodes, i);
      Iupdate(i);
      InodeWriteKeeps(sb, b, inodes, i, blocks[sb.IBlock(i)]);
      TruncOthers(sb, b0, n0, blocks, inodes, i);
    }

    /** itrunc() before it sets the size: the loops that give the blocks back. */
    method FreeBlocks(i: nat)
      requires Valid() && i < |inodes| <= sb.ninodes
      modifies this
      ensures Valid() && inodes == old(inodes)[i := old(inodes[i]).(addrs := NO_ADDRS)]
      ensures |blocks| == |old(blocks)| && sb.size <= |blocks|
      ensures forall c :: 0 <= c < sb.size ==>
                Used(sb, blocks, c) == (Used(sb, old(blocks), c) && !OwnedIn(old(blocks), old(inodes[i]), c))
      ensures forall c :: sb.DataStart() <= c < sb.size ==> blocks[c] == old(blocks)[c]
      ensures Logs(sb, sb.bmapstart, old(blocks), old(logged), blocks, logged)
    {
      hide SlotsUsed, SlotsDistinct, MetaUsed, Used, Addr, OwnedIn, FreedBits, Entries, Logs;
      ghost var b0, n0, l0 := blocks, inodes, logged;
      FreeDirect(i);
      ghost var b1, n1, l1 := blocks, inodes, logged;
      if inodes[i].addrs[NDIRECT] != 0 {
        FreeIndirect(i);
        LogsThen(sb, sb.bmapstart, b0, l0, b1, l1, blocks, logged);
      }
      TruncBits(sb, b0, n0, b1, n1, blocks, i);
      assert inodes[i].addrs == NO_ADDRS;
    }

    /** The loop of itrunc() over the direct blocks. */
    method FreeDirect(i: nat)
      requires Valid() && i < |inodes|
      modifies this
      ensures Valid() && Freed(sb, old(blocks), old(inodes), blocks, inodes, i, NDIRECT)
      ensures Logs(sb, sb.bmapstart, old(blocks), old(logged), blocks, logged)
    {
      hide SlotsUsed, SlotsDistinct, MetaUsed, Used, Addr, FreedBits, Mark, Logs;
      ghost var b0, n0, l0 := blocks, inodes, logged;
      LogsNothing(sb, sb.bmapstart, b0, l0);
      FreedNothing(sb, b0, n0, i);
      var k := 0;
      while k < NDIRECT
        invariant 0 <= k <= NDIRECT && Valid() && Freed(sb, b0, n0, blocks, inodes, i, k)
        invariant Logs(sb, sb.bmapstart, b0, l0, blocks, logged)
      {
        var a := inodes[i].addrs[k];
        FreedStep(sb, b0, n0, blocks, inodes, i, k);
        if a != 0 {
          ghost var b, l := blocks, logged;
          var ok := Bfree(a);
          assert ok;
          LogsThen(sb, sb.bmapstart, b0, l0, b, l, blocks, logged);
          inodes := inodes[i := inodes[i].(addrs := inodes[i].addrs[k := 0])];
        }
        k := k + 1;
      }
    }

    /** The part of itrunc() that frees the indirect block and the blocks it lists. */
    method FreeIndirect(i: nat)
      requires Valid() && i < |inodes| && inodes[i].addrs[NDIRECT] != 0
      modifies this
      ensures Valid() && inodes == Cleared(old(inodes), i, NDIRECT)
      ensures var ind := old(inodes[i]).addrs[NDIRECT];
              ind < |old(blocks)| && FreedBits(sb, old(blocks), blocks, Entries(old(blocks)[ind]) + [ind])
      ensures Logs(sb, sb.bmapstart, old(blocks), old(logged), blocks, logged)
    {
      hide SlotsUsed, SlotsDistinct, MetaUsed, Used, Addr, FreedBits, Mark, Loose, SameAddrs, Logs;
      ghost var b1, l1 := blocks, logged;
      LogsNothing(sb, sb.bmapstart, b1, l1);
      ghost var b, l := b1, l1;
      ghost var g := Cleared(inodes, i, NDIRECT);
      EntriesLoose(sb, b1, inodes, i);
      var ind := inodes[i].addrs[NDIRECT];
      var a := blocks[ind];
      ghost var es := Entries(a) + [ind];
      LooseStart(sb, b1, g, es);
      var j := 0;
      while j < NINDIRECT
        invariant 0 <= j <= NINDIRECT && inodes == old(inodes) && LooseFreed(sb, b1, g, blocks, es, j)
        invariant Logs(sb, sb.bmapstart, b1, l1, blocks, logged)
      {
        LooseStep(sb, b1, g, blocks, es, j);
        if WordAt(a, j) != 0 {
          b, l := blocks, logged;
          var ok := Bfree(WordAt(a, j));
          assert ok;
          LogsThen(sb, sb.bmapstart, b1, l1, b, l, blocks, logged);
        }
        j := j + 1;
      }
      LooseStep(sb, b1, g, blocks, es, j);
      b, l := blocks, logged;
      var ok := Bfree(ind);
      assert ok;
      LogsThen(sb, sb.bmapstart, b1, l1, b, l, blocks, logged);
      inodes := inodes[i := inodes[i].(addrs := inodes[i].addrs[NDIRECT := 0])];
      assert es[..|es|] == es;
    }
  }

  /** Rewriting a block of the inode region does not touch the free map or the data. */
  lemma InodeWriteKeeps(sb: Super, b: Image, n: seq<Inode>, i: nat, data: Block)
    requires OwnOk(sb, b, n) && i < |n| <= sb.ninodes && sb.IBlock(i) < |b|
    ensures var b' := b[sb.IBlock(i) := data];
            && OwnOk(sb, b', n) && (forall c :: sb.DataStart() <= c < sb.size ==> b'[c] == b[c])
            && (forall c :: 0 <= c < sb.size ==> Used(sb, b', c) == Used(sb, b, c))
  {
    hide WordAt, Addr, FileByte, BitAt, SlotsUsed, SlotsDistinct, MetaUsed;
    InodeBlockKeeps(sb, b, n, i, data);
  }

  lemma ReadOverwritten(s: seq<Byte>, off: Word, src: seq<Byte>, o: Word, n: Word)
    requires off <= |s| && off + |src| <= MAXBYTES
    ensures o == off && n == |src| ==> ReadOf(Overwrite(s, off, src), o, n) == src
    ensures (o + n <= off || off + |src| <= o) && o + n <= |s| ==>
            ReadOf(Overwrite(s, off, src), o, n) == ReadOf(s, o, n)
  {
  }

  lemma SizeZero(b: Image, ip: Inode)
    requires ip.size == 0
    ensures HoleFree(b, ip)
  {
  }

  lemma TruncOthers(sb: Super, b0: Image, n0: seq<Inode>, b: Image, n: seq<Inode>, i: nat)
    requires OwnOk(sb, b0, n0) && i < |n| == |n0| && |b| == |b0| && n[i].size == 0
    requires forall j :: 0 <= j < |n| && j != i ==> n[j] == n0[j]
    requires forall c :: sb.DataStart() <= c < sb.size ==> b[c] == b0[c]
    ensures forall j :: 0 <= j < |n| && j != i && n[j].size <= MAXBYTES ==> Contents(b, n[j]) == Contents(b0, n[j])
    ensures (forall j :: 0 <= j < |n0| ==> HoleFree(b0, n0[j])) ==> forall j :: 0 <= j < |n| ==> HoleFree(b, n[j])
  {
    hide SlotsUsed, SlotsDistinct, MetaUsed, HoleFree, Contents;
    SizeZero(b, n[i]);
    forall j | 0 <= j < |n| && j != i
      ensures n[j].size <= MAXBYTES ==> Contents(b, n[j]) == Contents(b0, n[j])
      ensures HoleFree(b0, n[j]) ==> HoleFree(b, n[j])
    {
      DataSame(sb, b0, n0, b, j);
    }
  }

  /** A file's contents depend on data blocks only. */
  lemma DataSame(sb: Super, b0: Image, n: seq<Inode>, b1: Image, j: nat)
    requires OwnOk(sb, b0, n) && j < |n| && |b1| == |b0| && forall c :: sb.DataStart() <= c < sb.size ==> b1[c] == b0[c]
    ensures n[j].size <= MAXBYTES ==> Contents(b1, n[j]) == Contents(b0, n[j])
    ensures HoleFree(b0, n[j]) ==> HoleFree(b1, n[j])
  {
    hide WordAt, Used, SlotsDistinct, MetaUsed;
    forall k | 0 <= k < SLOTS
      ensures Addr(b1, n[j], k) == Addr(b0, n[j], k)
    {
      assert Addr(b0, n[j], NDIRECT) == n[j].addrs[NDIRECT];
    }
    if n[j].size <= MAXBYTES {
      forall o | 0 <= o < n[j].size
        ensures FileByte(b1, n[j], o) == FileByte(b0, n[j], o)
      {
        var k := FileSlot(o / BSIZE);
        assert Addr(b1, n[j], k) == Addr(b0, n[j], k);
      }
      assert Contents(b1, n[j]) == Contents(b0, n[j]);
    }
  }

  lemma OverwriteNothing(s: seq<Byte>, off: nat)
    requires off <= |s|
    ensures Overwrite(s, off, []) == s
  {
  }

  lemma OverwriteLength(s: seq<Byte>, off: nat, src: seq<Byte>)
    requires off <= |s|
    ensures |Overwrite(s, off, src)| == if off + |src| > |s| then off + |src| else |s|
  {
  }

  /** Writing two pieces one after the other is writing them together. */
  lemma OverwriteTwice(s: seq<Byte>, off: nat, a: seq<Byte>, b: seq<Byte>)
    requires off <= |s|
    ensures Overwrite(Overwrite(s, off, a), off + |a|, b) == Overwrite(s, off, a + b)
  {
  }

  /** A write of at most three blocks' worth of bytes logs at most ten blocks. */
  lemma ThreeBlocksFit(off: nat, n: nat)
    requires n <= FILEWRITE_MAX
    ensures 2 * Spanned(off, n) + 2 - (if off % BSIZE != 0 && n > 0 then 1 else 0) < MAXOPBLOCKS
  {
  }

  lemma BlockMapped(b: Image, ip: Inode, o: nat)
    requires HoleFree(b, ip) && o < ip.size
    ensures Addr(b, ip, FileSlot(o / BSIZE)) != 0
  {
  }
}
