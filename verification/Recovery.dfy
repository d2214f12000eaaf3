/** What the log gives the file system: the files that a reboot finds on the disk. A file system
    operation changes blocks only through log_write(), so after any crash the disk decodes to
    inodes, a free map and contents as they stood between two operations. */
module Recovery {
  import opened Common
  import opened Blocks
  import opened RedoLog
  import opened BlockMap
  import opened FileSystem
  import Truncate
  import GroupCommit

  /** initlog(): the log is where the super block says. */
  function LogOf(sb: Super): Layout { Layout(sb.logstart, sb.nlog) }

  /** The inodes that ilock() reads from disk d. */
  function OnDisk(sb: Super, d: Image): (n: seq<Inode>)
    requires LayoutOk(sb, d)
    ensures |n| == sb.ninodes && InStep(sb, d, n)
  {
    assert forall j :: 0 <= j < sb.ninodes ==> sb.IBlock(j) <= sb.IBlock(sb.ninodes);
    assert sb.bmapstart <= sb.BBlock(sb.size);
    seq(sb.ninodes, j requires 0 <= j < sb.ninodes => GetInode(d[sb.IBlock(j)], j % IPB))
  }

  /** Disk d holds a file system in order: no block of a file is free or shared, and no file has a hole. */
  predicate Consistent(sb: Super, d: Image)
  {
    && LayoutOk(sb, d) && OwnOk(sb, d, OnDisk(sb, d))
    && forall j :: 0 <= j < sb.ninodes ==> HoleFree(d, OnDisk(sb, d)[j])
  }

  /** The contents of every file on disk d, by inode number. */
  function Files(sb: Super, d: Image): (s: seq<seq<Byte>>)
    requires Consistent(sb, d)
    ensures |s| == sb.ninodes
  {
    var n := OnDisk(sb, d);
    seq(sb.ninodes, j requires 0 <= j < sb.ninodes => Contents(d, n[j]))
  }

  lemma InodesThere(sb: Super, d: Image, n: seq<Inode>)
    requires LayoutOk(sb, d) && |n| == sb.ninodes && InStep(sb, d, n)
    ensures OnDisk(sb, d) == n
  {
    hide GetInode;
  }

  // ---- only home blocks matter ----

  /** Disks that agree from the inode blocks on. */
  predicate SameFs(sb: Super, d: Image, e: Image)
  {
    |d| == |e| && forall c :: sb.inodestart <= c < |d| ==> d[c] == e[c]
  }

  lemma HomeIsFs(sb: Super, d: Image, e: Image)
    requires SameHome(LogOf(sb), d, e) && sb.logstart + sb.nlog <= sb.inodestart
    ensures SameFs(sb, d, e)
  {
  }

  lemma SameInodes(sb: Super, d: Image, e: Image)
    requires LayoutOk(sb, d) && SameFs(sb, d, e)
    ensures LayoutOk(sb, e) && OnDisk(sb, e) == OnDisk(sb, d)
  {
    hide GetInode;
    assert forall j :: 0 <= j < sb.ninodes ==> sb.IBlock(j) <= sb.IBlock(sb.ninodes);
  }

  lemma SameUsed(sb: Super, d: Image, e: Image, c: nat)
    requires SameFs(sb, d, e) && sb.inodestart <= sb.bmapstart
    ensures Used(sb, d, c) == Used(sb, e, c)
  {
  }

  lemma SameAddr(sb: Super, d: Image, e: Image, n: seq<Inode>, i: nat, k: nat)
    requires OwnOk(sb, d, n) && SameFs(sb, d, e) && i < |n| && k < SLOTS
    ensures Addr(e, n[i], k) == Addr(d, n[i], k)
  {
    hide WordAt, Used, SlotsDistinct, MetaUsed;
    assert Addr(d, n[i], NDIRECT) == n[i].addrs[NDIRECT];
    assert sb.inodestart <= sb.IBlock(sb.ninodes) && sb.bmapstart <= sb.BBlock(sb.size);
  }

  lemma SameOwners(sb: Super, d: Image, e: Image, n: seq<Inode>)
    requires OwnOk(sb, d, n) && SameFs(sb, d, e)
    ensures OwnOk(sb, e, n)
  {
    hide WordAt, Used, Addr;
    assert sb.inodestart <= sb.IBlock(sb.ninodes);
    forall c: nat
      ensures Used(sb, d, c) == Used(sb, e, c)
    {
      SameUsed(sb, d, e, c);
    }
    forall i, k | 0 <= i < |n| && 0 <= k < SLOTS
      ensures Addr(e, n[i], k) == Addr(d, n[i], k)
    {
      SameAddr(sb, d, e, n, i, k);
    }
  }

  /** A consistent disk stays consistent, with the same files, whatever its log region holds. */
  lemma FilesAtHome(sb: Super, d: Image, e: Image)
    requires Consistent(sb, d) && SameHome(LogOf(sb), d, e)
    ensures Consistent(sb, e) && Files(sb, e) == Files(sb, d)
  {
    hide OwnOk, HoleFree, Contents, GetInode;
    HomeIsFs(sb, d, e);
    SameInodes(sb, d, e);
    var n := OnDisk(sb, d);
    SameOwners(sb, d, e, n);
    assert sb.inodestart <= sb.DataStart() by {
      assert sb.inodestart <= sb.IBlock(sb.ninodes) && sb.bmapstart <= sb.BBlock(sb.size);
    }
    forall j | 0 <= j < sb.ninodes
      ensures HoleFree(e, n[j]) && n[j].size <= MAXBYTES && Contents(e, n[j]) == Contents(d, n[j])
    {
      assert HoleFree(d, n[j]);
      SizeBound(d, n[j]);
      DataSame(sb, d, n, e, j);
    }
  }

  lemma SizeBound(d: Image, ip: Inode)
    requires HoleFree(d, ip)
    ensures ip.size <= MAXBYTES
  {
  }

  // ---- crashes ----

  /** A transaction that takes the files from d to view and has logged the blocks bs. */
  predicate Transaction(sb: Super, d: Image, view: Image, bs: seq<Word>)
  {
    Consistent(sb, view) && |view| == |d| && SameHome(LogOf(sb), view, Overlay(d, view, bs))
  }

  /** The disk as a transaction leaves it if its header gets out, and otherwise as it finds it. */
  function Next(d: Image, e: Episode): Image { if e.k > |e.bs| then e.view else d }

  /** Every episode is a transaction of the file system, on the files that the last one out has left. */
  predicate FileLife(sb: Super, d: Image, es: seq<Episode>)
    decreases |es|
  {
    es == [] || (Transaction(sb, d, es[0].view, es[0].bs) && FileLife(sb, Next(d, es[0]), es[1..]))
  }

  /** The state after the last transaction whose header reached the disk. */
  function LastOut(d: Image, es: seq<Episode>): Image
    decreases |es|
  {
    if es == [] then d else LastOut(Next(d, es[0]), es[1..])
  }

  lemma {:induction false} IdealIsLast(sb: Super, d: Image, es: seq<Episode>)
    requires FileLife(sb, d, es) && forall i :: 0 <= i < |es| ==> |es[i].view| == |d|
    ensures SameHome(LogOf(sb), Ideal(d, es), LastOut(d, es))
    decreases |es|
  {
    hide Consistent, Overlay;
    if es != [] {
      var e := es[0];
      IdealIsLast(sb, Next(d, e), es[1..]);
      IdealRespectsHome(LogOf(sb), if e.k > |e.bs| then Overlay(d, e.view, e.bs) else d, Next(d, e), es[1..]);
    }
  }

  lemma {:induction false} LastConsistent(sb: Super, d: Image, es: seq<Episode>)
    requires Consistent(sb, d) && FileLife(sb, d, es)
    ensures Consistent(sb, LastOut(d, es))
    decreases |es|
  {
    hide Consistent, Overlay, SameHome;
    if es != [] {
      LastConsistent(sb, Next(d, es[0]), es[1..]);
    }
  }

  /** Over any life of the disk, with crashes after any write of any commit and in recovery, the disk is
      consistent, and the files are those of the last transaction whose header got out. */
  lemma FilesSurvive(sb: Super, d: Image, es: seq<Episode>)
    requires Consistent(sb, d) && FileLife(sb, d, es) && PossibleLife(LogOf(sb), d, es)
    ensures Consistent(sb, LiveAll(LogOf(sb), d, es)) && Consistent(sb, LastOut(d, es))
    ensures Files(sb, LiveAll(LogOf(sb), d, es)) == Files(sb, LastOut(d, es))
  {
    hide Consistent, Files, LiveAll, PossibleLife, FileLife, LastOut, Ideal;
    LifeIsAtomic(LogOf(sb), d, es);
    IdealIsLast(sb, d, es);
    LastConsistent(sb, d, es);
    FilesAtHome(sb, LastOut(d, es), LiveAll(LogOf(sb), d, es));
  }

  /** The same for many operations in one transaction: what a reboot finds is the replay of the
      surviving log_write()s, so the files are the files of that replay. */
  lemma FilesAfterAnyRun(sb: Super, s0: GroupCommit.State, steps: seq<GroupCommit.Step>, ks: seq<nat>)
    requires GroupCommit.Init(LogOf(sb), s0) && GroupCommit.Run(LogOf(sb), s0, steps)
    requires var s := GroupCommit.After(LogOf(sb), s0, steps);
             Consistent(sb, GroupCommit.Replay(s0.first, GroupCommit.Survivors(s)))
    ensures var s := GroupCommit.After(LogOf(sb), s0, steps);
            && WellFormed(LogOf(sb), s.disk) && Consistent(sb, Reboot(LogOf(sb), s.disk, ks))
            && Files(sb, Reboot(LogOf(sb), s.disk, ks)) ==
               Files(sb, GroupCommit.Replay(s0.first, GroupCommit.Survivors(s)))
  {
    hide Consistent, Files, WellFormed, Reboot, GroupCommit.Replay, GroupCommit.Survivors, GroupCommit.Init,
         GroupCommit.Run, GroupCommit.After;
    GroupCommit.CrashAnywhere(LogOf(sb), s0, steps, ks);
    var s := GroupCommit.After(LogOf(sb), s0, steps);
    FilesAtHome(sb, GroupCommit.Replay(s0.first, GroupCommit.Survivors(s)), Reboot(LogOf(sb), s.disk, ks));
  }

  // ---- the transactions of the file system ----

  /** The cached inodes are those on the disk as bread() shows it, and all of them are there. */
  ghost predicate Ready(fs: FileSys)
    reads fs
  {
    && fs.Valid() && fs.FilesOk() && |fs.inodes| == fs.sb.ninodes && InStep(fs.sb, fs.blocks, fs.inodes)
  }

  lemma ReadyConsistent(fs: FileSys)
    requires Ready(fs)
    ensures Consistent(fs.sb, fs.blocks) && OnDisk(fs.sb, fs.blocks) == fs.inodes
  {
    hide SlotsUsed, SlotsDistinct, MetaUsed, HoleFree, GetInode, InStep;
    InodesThere(fs.sb, fs.blocks, fs.inodes);
  }

  /** bs lists the logged blocks, as the header in memory does. */
  ghost predicate Lists(bs: seq<Word>, logged: set<nat>)
  {
    Distinct(bs) && forall c :: c in bs <==> c in logged
  }

  lemma LogsTransaction(sb: Super, d: Image, view: Image, logged: set<nat>, bs: seq<Word>)
    requires Logs(sb, sb.inodestart, d, {}, view, logged) && Consistent(sb, view) && Lists(bs, logged)
    ensures Transaction(sb, d, view, bs)
    ensures |logged| <= LOGSIZE && |logged| < sb.nlog && Clean(LogOf(sb), d) ==> CanCommit(LogOf(sb), d, view, bs)
  {
    hide Consistent;
    if |logged| <= LOGSIZE && |logged| < sb.nlog && Clean(LogOf(sb), d) {
      LogsLoggable(sb, d, view, logged, bs);
    }
  }

  lemma LogsLoggable(sb: Super, d: Image, view: Image, logged: set<nat>, bs: seq<Word>)
    requires Logs(sb, sb.inodestart, d, {}, view, logged) && Consistent(sb, view) && Lists(bs, logged)
    requires |logged| <= LOGSIZE && |logged| < sb.nlog && Clean(LogOf(sb), d)
    ensures Loggable(LogOf(sb), |d|, bs)
  {
    hide OwnOk, HoleFree, HeaderN;
    CountDistinct<nat>(bs);
    assert (set x: nat | x in bs) == logged;
    forall i | 0 <= i < |bs|
      ensures bs[i] < |d| && !LogOf(sb).InLog(bs[i])
    {
      assert bs[i] in logged;
    }
  }

  /** One transaction of filewrite(), ready to be committed. */
  method WriteFile(fs: FileSys, i: nat, off: Word, src: seq<Byte>) returns (r: int)
    requires Ready(fs) && i < |fs.inodes| && |src| <= FILEWRITE_MAX
    modifies fs
    ensures Ready(fs) && Consistent(fs.sb, old(fs.blocks)) && Consistent(fs.sb, fs.blocks) && -1 <= r <= |src|
    ensures |fs.logged| <= MAXOPBLOCKS
    ensures r == -1 <==> off > |Files(fs.sb, old(fs.blocks))[i]| || off + |src| > MAXBYTES
    ensures forall bs :: Lists(bs, fs.logged) ==> Transaction(fs.sb, old(fs.blocks), fs.blocks, bs)
    ensures forall bs :: Lists(bs, fs.logged) && Clean(LogOf(fs.sb), old(fs.blocks)) && MAXOPBLOCKS < fs.sb.nlog ==>
              CanCommit(LogOf(fs.sb), old(fs.blocks), fs.blocks, bs)
    ensures var was := Files(fs.sb, old(fs.blocks));
            Files(fs.sb, fs.blocks) == if r == -1 then was else was[i := Overwrite(was[i], off, src[..r])]
  {
    hide OwnOk, HoleFree, Contents, Overwrite, Logs, InStep, Used, Consistent, Transaction, CanCommit, Clean, Lists;
    ReadyConsistent(fs);
    ghost var d, n := fs.blocks, fs.inodes;
    ghost var before;
    r, before := fs.WriteTransaction(i, off, src);
    ReadyConsistent(fs);
    ghost var view, logged := fs.blocks, fs.logged;
    forall bs | Lists(bs, logged)
      ensures Transaction(fs.sb, d, view, bs)
      ensures Clean(LogOf(fs.sb), d) && MAXOPBLOCKS < fs.sb.nlog ==> CanCommit(LogOf(fs.sb), d, view, bs)
    {
      LogsTransaction(fs.sb, d, view, logged, bs);
    }
    ghost var was, now := Files(fs.sb, d), Files(fs.sb, view);
    forall j | 0 <= j < fs.sb.ninodes
      ensures now[j] == if j != i || r == -1 then was[j] else Overwrite(was[i], off, src[..r])
    {
    }
  }

  /** itrunc() as a transaction of its own. */
  method TruncateFile(fs: FileSys, i: nat)
    requires Ready(fs) && i < |fs.inodes|
    modifies fs
    ensures Ready(fs) && Consistent(fs.sb, old(fs.blocks)) && Consistent(fs.sb, fs.blocks)
    ensures forall bs :: Lists(bs, fs.logged) ==> Transaction(fs.sb, old(fs.blocks), fs.blocks, bs)
    ensures Files(fs.sb, fs.blocks) == Files(fs.sb, old(fs.blocks))[i := []]
  {
    hide OwnOk, HoleFree, Contents, Logs, InStep, Used, Consistent, Transaction, Truncate.OwnedIn, GetInode;
    ReadyConsistent(fs);
    ghost var d, n := fs.blocks, fs.inodes;
    fs.logged := {};
    fs.Itrunc(i);
    ReadyConsistent(fs);
    ghost var view, logged := fs.blocks, fs.logged;
    forall bs | Lists(bs, logged)
      ensures Transaction(fs.sb, d, view, bs)
    {
      LogsTransaction(fs.sb, d, view, logged, bs);
    }
    ghost var was, now := Files(fs.sb, d), Files(fs.sb, view);
    forall j | 0 <= j < fs.sb.ninodes
      ensures now[j] == if j != i then was[j] else []
    {
      if j != i {
        assert HoleFree(view, fs.inodes[j]);
        SizeBound(view, fs.inodes[j]);
      }
    }
  }
}
