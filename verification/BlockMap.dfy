/** Who owns which disk block (kernel/fs.c): the free map, the inodes' address slots, and
    what allocating, mapping and freeing a block does to them. */
module BlockMap {
  import opened Common
  import opened Blocks
  import opened RedoLog

  const NDIRECT := 12
  const NINDIRECT := 256
  const MAXFILE := NDIRECT + NINDIRECT
  /** An inode's address slots: addrs[0..12], then the entries of the indirect block. */
  const SLOTS := NDIRECT + 1 + NINDIRECT
  const IPB := 16

  type Half = x: int | 0 <= x < 0x1_0000
  type Addrs = s: seq<Word> | |s| == NDIRECT + 1 witness seq(NDIRECT + 1, _ => 0)

  const NO_ADDRS: Addrs := seq(NDIRECT + 1, _ => 0)

  datatype Super = Super(size: nat, nblocks: nat, ninodes: nat, nlog: nat,
                         logstart: nat, inodestart: nat, bmapstart: nat)
  {
    /** First data block; everything before it is boot block, super block, log, inodes, free map. */
    function DataStart(): nat { if nblocks <= size then size - nblocks else 0 }
    function BBlock(b: nat): nat { b / BPB + bmapstart }
    function IBlock(i: nat): nat { i / IPB + inodestart }
  }

  datatype Inode = Inode(kind: Half, major: Half, minor: Half, nlink: Half, size: Word, addrs: Addrs)

  /** The regions follow one another as mkfs lays them out. */
  predicate LayoutOk(sb: Super, blocks: Image)
  {
    && sb.nblocks <= sb.size <= |blocks| <= 0x1_0000_0000
    && sb.logstart + sb.nlog <= sb.inodestart
    && sb.IBlock(sb.ninodes) < sb.bmapstart
    && sb.BBlock(sb.size) < sb.DataStart()
  }

  // ---- the free map ----

  predicate Used(sb: Super, blocks: Image, b: nat)
  {
    sb.BBlock(b) < |blocks| && BitAt(blocks[sb.BBlock(b)], b % BPB)
  }

  function Mark(sb: Super, blocks: Image, b: nat, v: bool): (r: Image)
    ensures |r| == |blocks|
  {
    var m := sb.BBlock(b);
    if m < |blocks| then blocks[m := PutBit(blocks[m], b % BPB, v)] else blocks
  }

  lemma MarkReads(sb: Super, blocks: Image, b: nat, v: bool, c: nat)
    requires sb.BBlock(b) < |blocks|
    ensures Used(sb, Mark(sb, blocks, b, v), c) == if b == c then v else Used(sb, blocks, c)
  {
    if sb.BBlock(b) == sb.BBlock(c) {
      PutBitReads(blocks[sb.BBlock(b)], b % BPB, v, c % BPB);
      assert b != c ==> b % BPB != c % BPB;
    }
  }

  lemma MarkKeepsData(sb: Super, blocks: Image, b: nat, v: bool, c: nat)
    requires LayoutOk(sb, blocks) && b < sb.size && sb.DataStart() <= c < |blocks|
    ensures Mark(sb, blocks, b, v)[c] == blocks[c]
  {
  }

  /** What balloc() does once it has chosen block b. */
  function Allocate(sb: Super, blocks: Image, b: nat): (r: Image)
    requires b < |blocks|
    ensures |r| == |blocks|
  {
    Mark(sb, blocks, b, true)[b := ZeroBlock()]
  }

  lemma UsedElsewhere(sb: Super, blocks: Image, b: nat, c: nat)
    requires LayoutOk(sb, blocks) && sb.DataStart() <= b < sb.size && c < sb.size
    ensures Used(sb, blocks[b := ZeroBlock()], c) == Used(sb, blocks, c)
  {
    hide BitAt;
  }

  /** Allocating a data block changes its own bit and contents, and one block of the free map. */
  lemma AllocateReads(sb: Super, blocks: Image, b: nat, c: nat)
    requires LayoutOk(sb, blocks) && sb.DataStart() <= b < sb.size && c < sb.size
    ensures Used(sb, Allocate(sb, blocks, b), c) == (b == c || Used(sb, blocks, c))
    ensures sb.DataStart() <= c ==> Allocate(sb, blocks, b)[c] == if b == c then ZeroBlock() else blocks[c]
  {
    hide Used, Mark;
    MarkReads(sb, blocks, b, true, c);
    UsedElsewhere(sb, Mark(sb, blocks, b, true), b, c);
    if sb.DataStart() <= c {
      MarkKeepsData(sb, blocks, b, true, c);
    }
  }

  // ---- address slots ----

  function Addr(blocks: Image, ip: Inode, k: nat): Word
    requires k < SLOTS
  {
    if k <= NDIRECT then ip.addrs[k]
    else if ip.addrs[NDIRECT] == 0 || ip.addrs[NDIRECT] >= |blocks| then 0
    else WordAt(blocks[ip.addrs[NDIRECT]], k - NDIRECT - 1)
  }

  predicate MetaUsed(sb: Super, blocks: Image)
  {
    forall b :: 0 <= b < sb.DataStart() ==> Used(sb, blocks, b)
  }

  /** a is a data block in use. */
  predicate InData(sb: Super, blocks: Image, a: nat)
  {
    sb.DataStart() <= a < sb.size && Used(sb, blocks, a)
  }

  predicate SlotsUsed(sb: Super, blocks: Image, inodes: seq<Inode>)
  {
    forall i, k :: 0 <= i < |inodes| && 0 <= k < SLOTS && Addr(blocks, inodes[i], k) != 0 ==>
      InData(sb, blocks, Addr(blocks, inodes[i], k))
  }

  predicate SlotsDistinct(blocks: Image, inodes: seq<Inode>)
  {
    forall i, k, j, l :: (0 <= i < |inodes| && 0 <= k < SLOTS && 0 <= j < |inodes| && 0 <= l < SLOTS
      && Addr(blocks, inodes[i], k) == Addr(blocks, inodes[j], l) != 0) ==> i == j && k == l
  }

  /** Block ownership: used metadata, and every non-zero address a used data block of its own. */
  predicate OwnOk(sb: Super, blocks: Image, inodes: seq<Inode>)
  {
    LayoutOk(sb, blocks) && MetaUsed(sb, blocks) && SlotsUsed(sb, blocks, inodes) && SlotsDistinct(blocks, inodes)
  }

  predicate Owned(blocks: Image, inodes: seq<Inode>, a: nat)
  {
    exists i, k :: 0 <= i < |inodes| && 0 <= k < SLOTS && Addr(blocks, inodes[i], k) == a
  }

  lemma OwnedBy(blocks: Image, inodes: seq<Inode>, i: nat, k: nat)
    requires i < |inodes| && k < SLOTS
    ensures Owned(blocks, inodes, Addr(blocks, inodes[i], k))
  {
  }

  predicate SameAddrs(blocks: Image, blocks': Image, inodes: seq<Inode>)
  {
    forall i, k :: 0 <= i < |inodes| && 0 <= k < SLOTS ==>
      Addr(blocks', inodes[i], k) == Addr(blocks, inodes[i], k)
  }

  /** Blocks outside the indirect blocks may change without changing any address. */
  lemma AddrsStable(sb: Super, blocks: Image, blocks': Image, inodes: seq<Inode>)
    requires SlotsUsed(sb, blocks, inodes) && |blocks'| == |blocks|
    requires forall b :: (0 <= b < |blocks| && InData(sb, blocks, b) && Owned(blocks, inodes, b)) ==>
               blocks'[b] == blocks[b]
    ensures SameAddrs(blocks, blocks', inodes)
  {
    hide Used, WordAt;
    forall i, k | 0 <= i < |inodes| && 0 <= k < SLOTS
      ensures Addr(blocks', inodes[i], k) == Addr(blocks, inodes[i], k)
    {
      var ind := inodes[i].addrs[NDIRECT];
      assert Addr(blocks, inodes[i], NDIRECT) == ind;
      if k > NDIRECT && ind != 0 && ind < |blocks| {
        assert Owned(blocks, inodes, ind);
      }
    }
  }

  /** balloc()'s choice belongs to nobody, and taking it leaves every ownership in place. */
  lemma AllocateKeeps(sb: Super, blocks: Image, inodes: seq<Inode>, b: nat)
    requires OwnOk(sb, blocks, inodes) && b < sb.size && !Used(sb, blocks, b)
    ensures sb.DataStart() <= b
    ensures !Owned(blocks, inodes, b)
    ensures SameAddrs(blocks, Allocate(sb, blocks, b), inodes)
    ensures OwnOk(sb, Allocate(sb, blocks, b), inodes)
    ensures !Owned(Allocate(sb, blocks, b), inodes, b)
  {
    hide Used, WordAt, Mark;
    var blocks' := Allocate(sb, blocks, b);
    forall c | 0 <= c < sb.size
      ensures Used(sb, blocks', c) == (b == c || Used(sb, blocks, c))
      ensures sb.DataStart() <= c ==> blocks'[c] == if b == c then ZeroBlock() else blocks[c]
    {
      AllocateReads(sb, blocks, b, c);
    }
    AddrsStable(sb, blocks, blocks', inodes);
  }

  /** Store address a in slot k of inode i: in the inode, or in its indirect block. */
  function SetBlocks(blocks: Image, ip: Inode, k: nat, a: Word): (r: Image)
    requires k < SLOTS
    ensures |r| == |blocks|
  {
    var ind := ip.addrs[NDIRECT];
    if k <= NDIRECT || ind >= |blocks| then blocks
    else blocks[ind := PutWord(blocks[ind], k - NDIRECT - 1, a)]
  }

  function SetInode(ip: Inode, k: nat, a: Word): Inode
    requires k < SLOTS
  {
    if k <= NDIRECT then ip.(addrs := ip.addrs[k := a]) else ip
  }

  /** Slot k of inode i can take address a: it is empty, and an indirect block starts out zeroed. */
  predicate CanSet(sb: Super, blocks: Image, inodes: seq<Inode>, i: nat, k: nat, a: Word)
  {
    && i < |inodes| && k < SLOTS && OwnOk(sb, blocks, inodes)
    && Addr(blocks, inodes[i], k) == 0 && a != 0 && InData(sb, blocks, a) && !Owned(blocks, inodes, a)
    && (k == NDIRECT ==> blocks[a] == ZeroBlock())
    && (k > NDIRECT ==> inodes[i].addrs[NDIRECT] != 0)
  }

  /** Setting a slot sets that slot and no other, of that inode or any other. */
  lemma SetReads(sb: Super, blocks: Image, inodes: seq<Inode>, i: nat, k: nat, a: Word, j: nat, l: nat)
    requires CanSet(sb, blocks, inodes, i, k, a) && j < |inodes| && l < SLOTS
    ensures Addr(SetBlocks(blocks, inodes[i], k, a), inodes[i := SetInode(inodes[i], k, a)][j], l)
              == if i == j && k == l then a else Addr(blocks, inodes[j], l)
  {
    hide WordAt, PutWord, Used;
    var ind := inodes[i].addrs[NDIRECT];
    var other := inodes[j].addrs[NDIRECT];
    assert Addr(blocks, inodes[i], NDIRECT) == ind && Addr(blocks, inodes[j], NDIRECT) == other;
    if k > NDIRECT && l > NDIRECT {
      if i == j {
        PutWordReads(blocks[ind], k - NDIRECT - 1, a, l - NDIRECT - 1);
      }
    } else if k == NDIRECT && l > NDIRECT && i == j {
      ZeroWords(l - NDIRECT - 1);
    }
  }

  /** Mapping a fresh block into an empty slot keeps block ownership. */
  lemma SetKeeps(sb: Super, blocks: Image, inodes: seq<Inode>, i: nat, k: nat, a: Word)
    requires CanSet(sb, blocks, inodes, i, k, a)
    ensures OwnOk(sb, SetBlocks(blocks, inodes[i], k, a), inodes[i := SetInode(inodes[i], k, a)])
  {
    hide WordAt, PutWord, Used, Addr, SetInode;
    var blocks', inodes' := SetBlocks(blocks, inodes[i], k, a), inodes[i := SetInode(inodes[i], k, a)];
    forall j, l | 0 <= j < |inodes'| && 0 <= l < SLOTS
      ensures Addr(blocks', inodes'[j], l) == if i == j && k == l then a else Addr(blocks, inodes[j], l)
    {
      SetReads(sb, blocks, inodes, i, k, a, j, l);
    }
    if k > NDIRECT {
      IndirectIsData(sb, blocks, inodes, i);
    }
    UsedStable(sb, blocks, blocks');
  }

  lemma IndirectIsData(sb: Super, blocks: Image, inodes: seq<Inode>, i: nat)
    requires SlotsUsed(sb, blocks, inodes) && i < |inodes| && inodes[i].addrs[NDIRECT] != 0
    ensures InData(sb, blocks, inodes[i].addrs[NDIRECT])
  {
    assert Addr(blocks, inodes[i], NDIRECT) == inodes[i].addrs[NDIRECT];
  }

  /** Changes to data blocks do not touch the free map. */
  lemma UsedStable(sb: Super, blocks: Image, blocks': Image)
    requires LayoutOk(sb, blocks) && |blocks'| == |blocks|
    requires forall b :: 0 <= b < sb.DataStart() ==> blocks'[b] == blocks[b]
    ensures LayoutOk(sb, blocks')
    ensures forall b :: 0 <= b < sb.size ==> Used(sb, blocks', b) == Used(sb, blocks, b)
  {
    hide BitAt;
  }

  /** Clearing the bit of a data block that nobody owns keeps block ownership. */
  lemma UnmarkKeeps(sb: Super, blocks: Image, inodes: seq<Inode>, b: nat)
    requires OwnOk(sb, blocks, inodes) && sb.DataStart() <= b < sb.size && !Owned(blocks, inodes, b)
    ensures OwnOk(sb, Mark(sb, blocks, b, false), inodes)
    ensures SameAddrs(blocks, Mark(sb, blocks, b, false), inodes)
  {
    hide Used, Mark, Addr, Owned;
    var blocks' := Mark(sb, blocks, b, false);
    forall c | 0 <= c < sb.size
      ensures Used(sb, blocks', c) == (c != b && Used(sb, blocks, c))
      ensures sb.DataStart() <= c ==> blocks'[c] == blocks[c]
    {
      MarkReads(sb, blocks, b, false, c);
      if sb.DataStart() <= c {
        MarkKeepsData(sb, blocks, b, false, c);
      }
    }
    forall i, k | 0 <= i < |inodes| && 0 <= k < SLOTS
      ensures Addr(blocks, inodes[i], k) != b
    {
      OwnedBy(blocks, inodes, i, k);
    }
    AddrsStable(sb, blocks, blocks', inodes);
  }

  // ---- file contents ----

  const MAXBYTES := MAXFILE * BSIZE

  /** The address slot of a file's nth block. */
  function FileSlot(n: nat): (k: nat)
    requires n < MAXFILE
    ensures k < SLOTS && k != NDIRECT
  {
    if n < NDIRECT then n else n + 1
  }

  function FileByte(blocks: Image, ip: Inode, o: nat): Byte
    requires o < MAXBYTES
  {
    var a := Addr(blocks, ip, FileSlot(o / BSIZE));
    if 0 < a < |blocks| then blocks[a].bytes[o % BSIZE] else 0
  }

  /** Every block below the size is mapped. */
  predicate HoleFree(blocks: Image, ip: Inode)
  {
    ip.size <= MAXBYTES && forall n :: 0 <= n < MAXFILE && n * BSIZE < ip.size ==> Addr(blocks, ip, FileSlot(n)) != 0
  }

  function Contents(blocks: Image, ip: Inode): (s: seq<Byte>)
    requires ip.size <= MAXBYTES
    ensures |s| == ip.size
  {
    seq(ip.size, o requires 0 <= o < ip.size => FileByte(blocks, ip, o))
  }

  // ---- what bmap() does ----

  /** The data blocks that slots of files point to hold what they held. */
  predicate DataKept(b0: Image, n0: seq<Inode>, b1: Image)
  {
    && |b1| == |b0|
    && forall j, l :: 0 <= j < |n0| && 0 <= l < SLOTS && l != NDIRECT && 0 < Addr(b0, n0[j], l) < |b0| ==>
         b1[Addr(b0, n0[j], l)] == b0[Addr(b0, n0[j], l)]
  }

  /** Inodes n1 are n0 but for the addresses of inode i. */
  predicate OnlyAddrs(n0: seq<Inode>, n1: seq<Inode>, i: nat)
  {
    && |n1| == |n0| && i < |n0| && n1[i] == n0[i].(addrs := n1[i].addrs)
    && forall j :: 0 <= j < |n0| && j != i ==> n1[j] == n0[j]
  }

  /** Slot k of inode i, which was empty, got the zeroed block a that nobody owned. */
  predicate AllocStep(sb: Super, b0: Image, n0: seq<Inode>, b1: Image, n1: seq<Inode>, i: nat, k: nat, a: Word)
  {
    && OnlyAddrs(n0, n1, i) && k < SLOTS && DataKept(b0, n0, b1) && OwnOk(sb, b1, n1)
    && a != 0 && a < |b0| && b1[a] == ZeroBlock() && !Owned(b0, n0, a)
    && forall j, l :: 0 <= j < |n0| && 0 <= l < SLOTS ==>
         Addr(b1, n1[j], l) == if j == i && l == k then a else Addr(b0, n0[j], l)
  }

  lemma AllocStepHolds(sb: Super, b0: Image, n0: seq<Inode>, i: nat, k: nat, a: Word)
    requires OwnOk(sb, b0, n0) && i < |n0| && k < SLOTS && Addr(b0, n0[i], k) == 0
    requires a < sb.size && !Used(sb, b0, a)
    requires k > NDIRECT ==> n0[i].addrs[NDIRECT] != 0
    ensures AllocStep(sb, b0, n0, SetBlocks(Allocate(sb, b0, a), n0[i], k, a), n0[i := SetInode(n0[i], k, a)], i, k, a)
    ensures OwnOk(sb, SetBlocks(Allocate(sb, b0, a), n0[i], k, a), n0[i := SetInode(n0[i], k, a)])
  {
    hide WordAt, PutWord, Used, Owned, Addr, SlotsDistinct, MetaUsed, Mark;
    var b := Allocate(sb, b0, a);
    AllocateKeeps(sb, b0, n0, a);
    AllocateReads(sb, b0, a, a);
    assert CanSet(sb, b, n0, i, k, a);
    SetKeeps(sb, b, n0, i, k, a);
    var b1, n1 := SetBlocks(b, n0[i], k, a), n0[i := SetInode(n0[i], k, a)];
    forall j, l | 0 <= j < |n0| && 0 <= l < SLOTS
      ensures Addr(b1, n1[j], l) == if j == i && l == k then a else Addr(b0, n0[j], l)
    {
      SetReads(sb, b, n0, i, k, a, j, l);
    }
    AllocKeepsData(sb, b0, n0, i, k, a);
  }

  lemma AllocKeepsData(sb: Super, b0: Image, n0: seq<Inode>, i: nat, k: nat, a: Word)
    requires OwnOk(sb, b0, n0) && i < |n0| && k < SLOTS
    requires a < sb.size && !Used(sb, b0, a) && sb.DataStart() <= a
    requires k > NDIRECT ==> n0[i].addrs[NDIRECT] != 0
    ensures DataKept(b0, n0, SetBlocks(Allocate(sb, b0, a), n0[i], k, a))
    ensures SetBlocks(Allocate(sb, b0, a), n0[i], k, a)[a] == ZeroBlock()
  {
    hide WordAt, PutWord, Used, Mark, MetaUsed;
    var b1 := SetBlocks(Allocate(sb, b0, a), n0[i], k, a);
    var ind := n0[i].addrs[NDIRECT];
    assert Addr(b0, n0[i], NDIRECT) == ind;
    forall j, l | 0 <= j < |n0| && 0 <= l < SLOTS && l != NDIRECT && 0 < Addr(b0, n0[j], l) < |b0|
      ensures b1[Addr(b0, n0[j], l)] == b0[Addr(b0, n0[j], l)]
    {
      var c := Addr(b0, n0[j], l);
      AllocateReads(sb, b0, a, c);
    }
  }

  /** bmap() on inode i for the file block in slot k: a is the block's address now. Nothing
      changes if it was mapped; otherwise only this slot and perhaps the indirect block's slot
      are filled, with zeroed blocks that nobody owned; and a is 0 only when no block is free. */
  predicate MapStep(sb: Super, b0: Image, n0: seq<Inode>, b1: Image, n1: seq<Inode>, i: nat, k: nat, a: Word)
  {
    && OnlyAddrs(n0, n1, i) && k < SLOTS && k != NDIRECT && DataKept(b0, n0, b1) && OwnOk(sb, b1, n1)
    && a == Addr(b1, n1[i], k) && a < |b0|
    && (forall j, l :: 0 <= j < |n0| && 0 <= l < SLOTS && !(j == i && (l == k || l == NDIRECT)) ==>
          Addr(b1, n1[j], l) == Addr(b0, n0[j], l))
    && (n0[i].addrs[NDIRECT] != 0 ==> n1[i].addrs[NDIRECT] == n0[i].addrs[NDIRECT])
    && (Addr(b0, n0[i], k) != 0 ==> b1 == b0 && n1 == n0)
    && (Addr(b0, n0[i], k) == 0 && a != 0 ==> b1[a] == ZeroBlock() && !Owned(b0, n0, a))
    && (a == 0 ==> forall c :: 0 <= c < sb.size ==> Used(sb, b1, c))
  }

  lemma MapFacts(sb: Super, b0: Image, n0: seq<Inode>, b1: Image, n1: seq<Inode>, i: nat, k: nat, a: Word)
    requires MapStep(sb, b0, n0, b1, n1, i, k, a)
    ensures |n1| == |n0| && n1[i].size == n0[i].size && |b1| == |b0|
    ensures a == Addr(b1, n1[i], k) && a < |b1|
    ensures a == 0 ==> forall c :: 0 <= c < sb.size ==> Used(sb, b1, c)
  {
  }

  lemma MapDirect(sb: Super, b0: Image, n0: seq<Inode>, b1: Image, n1: seq<Inode>, i: nat, k: nat, a: Word)
    requires AllocStep(sb, b0, n0, b1, n1, i, k, a) && k != NDIRECT
    requires OwnOk(sb, b0, n0) && Addr(b0, n0[i], k) == 0
    ensures MapStep(sb, b0, n0, b1, n1, i, k, a)
  {
    hide WordAt, Used, Owned, OwnOk;
    assert Addr(b0, n0[i], NDIRECT) == n0[i].addrs[NDIRECT] && Addr(b1, n1[i], NDIRECT) == n1[i].addrs[NDIRECT];
  }

  lemma SlotFilled(sb: Super, b0: Image, n0: seq<Inode>, b1: Image, n1: seq<Inode>, i: nat, k: nat, a: Word)
    requires AllocStep(sb, b0, n0, b1, n1, i, k, a)
    ensures |n1| == |n0| && |b1| == |b0| && Addr(b1, n1[i], k) == a != 0
    ensures n1[i].addrs[NDIRECT] == if k == NDIRECT then a else n0[i].addrs[NDIRECT]
    ensures k > NDIRECT && n0[i].addrs[NDIRECT] == 0 ==> Addr(b0, n0[i], k) == 0
  {
    assert Addr(b1, n1[i], NDIRECT) == n1[i].addrs[NDIRECT] && Addr(b0, n0[i], NDIRECT) == n0[i].addrs[NDIRECT];
  }

  lemma StillEmpty(sb: Super, b0: Image, n0: seq<Inode>, b1: Image, n1: seq<Inode>, i: nat, k: nat, ind: Word)
    requires AllocStep(sb, b0, n0, b1, n1, i, NDIRECT, ind) && n0[i].addrs[NDIRECT] == 0 && NDIRECT < k < SLOTS
    ensures Addr(b1, n1[i], k) == 0
  {
  }

  /** The indirect block's slot first, then the entry's (or no room for the entry). */
  lemma MapBoth(sb: Super, b0: Image, n0: seq<Inode>, b1: Image, n1: seq<Inode>, b2: Image, n2: seq<Inode>,
                i: nat, k: nat, ind: Word, a: Word)
    requires OwnOk(sb, b0, n0) && NDIRECT < k < SLOTS && AllocStep(sb, b0, n0, b1, n1, i, NDIRECT, ind)
    requires n0[i].addrs[NDIRECT] == 0
    requires MapStep(sb, b1, n1, b2, n2, i, k, a)
    ensures MapStep(sb, b0, n0, b2, n2, i, k, a)
  {
    hide WordAt, Used, OwnOk;
    assert Addr(b0, n0[i], k) == 0;
  }

  lemma MapNothing(sb: Super, b0: Image, n0: seq<Inode>, i: nat, k: nat)
    requires OwnOk(sb, b0, n0) && i < |n0| && k < SLOTS && k != NDIRECT
    requires Addr(b0, n0[i], k) == 0 ==> forall c :: 0 <= c < sb.size ==> Used(sb, b0, c)
    ensures MapStep(sb, b0, n0, b0, n0, i, k, Addr(b0, n0[i], k))
  {
  }

  // ---- what writing a block does to the files ----

  /** File contents survive bmap(): mapped bytes stay, in this file and all others. */
  lemma MapKeepsBytes(sb: Super, b0: Image, n0: seq<Inode>, b1: Image, n1: seq<Inode>, i: nat, k: nat, a: Word,
                      j: nat, o: nat)
    requires OwnOk(sb, b0, n0) && MapStep(sb, b0, n0, b1, n1, i, k, a) && j < |n0| && o < MAXBYTES
    ensures j != i || Addr(b0, n0[j], FileSlot(o / BSIZE)) != 0 ==>
              FileByte(b1, n1[j], o) == FileByte(b0, n0[j], o)
    ensures Addr(b0, n0[j], FileSlot(o / BSIZE)) != 0 ==> Addr(b1, n1[j], FileSlot(o / BSIZE)) != 0
  {
  }

  /** Storing into file block bn of inode i changes that block of that file and nothing else. */
  lemma StoreBytes(sb: Super, b: Image, n: seq<Inode>, i: nat, bn: nat, data: Block, j: nat, o: nat)
    requires OwnOk(sb, b, n) && i < |n| && bn < MAXFILE && Addr(b, n[i], FileSlot(bn)) != 0
    requires j < |n| && o < MAXBYTES
    ensures Addr(b, n[i], FileSlot(bn)) < |b|
    ensures var b' := b[Addr(b, n[i], FileSlot(bn)) := data];
            && OwnOk(sb, b', n) && SameAddrs(b, b', n)
            && FileByte(b', n[j], o) == if j == i && o / BSIZE == bn then data.bytes[o % BSIZE]
                else FileByte(b, n[j], o)
  {
    StoreKeeps(sb, b, n, i, bn, data);
    hide WordAt, Used, OwnOk, Addr;
    var a := Addr(b, n[i], FileSlot(bn));
    var b' := b[a := data];
    assert FileSlot(o / BSIZE) == FileSlot(bn) <==> o / BSIZE == bn;
    if Addr(b, n[j], FileSlot(o / BSIZE)) == a {
      OwnDistinct(sb, b, n, i, FileSlot(bn), j, FileSlot(o / BSIZE));
    }
  }

  lemma OwnDistinct(sb: Super, b: Image, n: seq<Inode>, i: nat, k: nat, j: nat, l: nat)
    requires OwnOk(sb, b, n) && i < |n| && k < SLOTS && j < |n| && l < SLOTS
    requires Addr(b, n[i], k) == Addr(b, n[j], l) != 0
    ensures i == j && k == l
  {
  }

  lemma StoreKeeps(sb: Super, b: Image, n: seq<Inode>, i: nat, bn: nat, data: Block)
    requires OwnOk(sb, b, n) && i < |n| && bn < MAXFILE && Addr(b, n[i], FileSlot(bn)) != 0
    ensures var a := Addr(b, n[i], FileSlot(bn));
            a < |b| && OwnOk(sb, b[a := data], n) && SameAddrs(b, b[a := data], n)
  {
    hide WordAt, Used;
    var a := Addr(b, n[i], FileSlot(bn));
    assert InData(sb, b, a);
    var b' := b[a := data];
    forall j, l | 0 <= j < |n| && 0 <= l < SLOTS
      ensures Addr(b', n[j], l) == Addr(b, n[j], l)
    {
      assert Addr(b, n[j], NDIRECT) == n[j].addrs[NDIRECT];
    }
    UsedStable(sb, b, b');
  }

  /** Rewriting a block of the inode region leaves ownership and every file as they were. */
  lemma InodeBlockKeeps(sb: Super, b: Image, n: seq<Inode>, i: nat, data: Block)
    requires OwnOk(sb, b, n) && i < sb.ninodes
    ensures sb.IBlock(i) < |b|
    ensures var b' := b[sb.IBlock(i) := data];
            && OwnOk(sb, b', n) && SameAddrs(b, b', n)
            && forall j, o :: 0 <= j < |n| && 0 <= o < MAXBYTES ==> FileByte(b', n[j], o) == FileByte(b, n[j], o)
  {
    hide WordAt, BitAt;
    var b' := b[sb.IBlock(i) := data];
    assert forall c :: 0 <= c < sb.size ==> Used(sb, b', c) == Used(sb, b, c);
    AddrsStable(sb, b, b', n);
    InodeBlockKeepsBytes(sb, b, n, i, data);
  }

  lemma InodeBlockKeepsBytes(sb: Super, b: Image, n: seq<Inode>, i: nat, data: Block)
    requires OwnOk(sb, b, n) && i < sb.ninodes && sb.IBlock(i) < |b|
    requires SameAddrs(b, b[sb.IBlock(i) := data], n)
    ensures forall j, o :: 0 <= j < |n| && 0 <= o < MAXBYTES ==>
              FileByte(b[sb.IBlock(i) := data], n[j], o) == FileByte(b, n[j], o)
  {
    hide WordAt, Used, Addr;
  }
}
