/** The logging layer of kernel/log.c on top of the buffer cache. Its disk writes are
    exactly the sequences whose crash behaviour module RedoLog proves. */
module Log {
  import opened Common
  import opened Blocks
  import opened RedoLog
  import opened BufferCache

  /** Log absorption: a block that is logged already keeps its slot. */
  function Absorb(bs: seq<Word>, bn: Word): seq<Word>
  {
    if bn in bs then bs else bs + [bn]
  }

  class LogLayer {
    const cache: Cache
    const L: Layout
    var outstanding: nat
    var committing: bool
    var n: nat
    const block: array<Word>
    /** The pinned buffer of each logged block. */
    ghost var bufs: seq<Buf>

    /** The in-memory header: the blocks of the current transaction. */
    ghost function Logged(): seq<Word>
      reads this`n, block
      requires n <= block.Length
    {
      block[..n]
    }

    /** The header in memory is a possible transaction on this disk. */
    ghost predicate HeaderOk()
      reads this`n, block, cache`view
    {
      && block.Length == LOGSIZE && n <= LOGSIZE && 1 <= L.size
      && |cache.view| <= 0x1_0000_0000
      && Loggable(L, |cache.view|, Logged())
    }

    /** Exactly the buffers of the logged blocks from slot k on are pinned, once each. */
    ghost predicate PinnedFrom(k: nat)
      reads this`n, this`bufs, block, cache.all`pins, cache.all`dev, cache.all`blockno
      requires n <= block.Length
    {
      && |bufs| == n && k <= n && Distinct(bufs)
      && (forall i :: 0 <= i < n ==> bufs[i] in cache.all)
      && (forall i :: k <= i < n ==> bufs[i].pins == 1 && bufs[i].dev == cache.dev && bufs[i].blockno == block[i])
      && (forall i :: 0 <= i < k ==> bufs[i].pins == 0)
      && (forall x :: x in cache.all && x.pins > 0 ==> x in bufs)
    }

    /** Between transactions and while one is being collected. */
    ghost predicate Valid()
      reads this`n, this`bufs, block, cache, cache.disk, cache.head, cache.all, cache.nodes
    {
      && cache.Valid() && HeaderOk() && PinnedFrom(0)
      && Clean(L, cache.disk.blocks)
    }

    /** initlog() up to its call of recover_from_log(). */
    constructor (cache: Cache, L: Layout)
      ensures this.cache == cache && this.L == L && fresh(block) && block.Length == LOGSIZE
      ensures n == 0 && outstanding == 0 && !committing && bufs == []
    {
      this.cache, this.L := cache, L;
      outstanding, committing, n := 0, false, 0;
      block := new Word[LOGSIZE](_ => 0);
      bufs := [];
    }

    /** Other processes have these buffers meanwhile, none of them for a block of the log or of the transaction. */
    ghost predicate Shared(others: set<Buf>)
      reads this`n, block, cache.all`locked, cache.all`waiters, cache.all`blockno
      requires n <= block.Length
    {
      && cache.InUse(others) && others <= cache.all
      && forall x :: x in others ==> !L.InLog(x.blockno) && x.blockno !in Logged()
    }

    /** There is a buffer for a log block besides those of the transaction and those of others. */
    ghost predicate Fits(others: set<Buf>)
      reads this`n
    {
      n + |others| < NBUF
    }

    lemma Room(k: nat, i: nat, others: set<Buf>)
      requires cache.Valid() && n <= block.Length && PinnedFrom(k) && cache.InUse(others) && Fits(others)
      requires k <= i < n
      ensures forall bn :: cache.CanGetPair(bn, block[i])
    {
      RoomFor(k, others);
      forall bn: nat
        ensures cache.CanGetPair(bn, block[i])
      {
        assert cache.Caches(bufs[i], block[i]);
      }
    }

    lemma RoomFor(k: nat, others: set<Buf>)
      requires cache.Valid() && n <= block.Length && PinnedFrom(k) && cache.InUse(others) && Fits(others)
      ensures forall bn :: cache.CanGet(bn)
    {
      CountDistinct(bufs);
      var used := (set x | x in bufs) + others;
      forall bn: nat
        ensures cache.CanGet(bn)
      {
        cache.RoomForBlock(used, bn);
      }
    }

    /** The referenced buffers that do not belong to the transaction. */
    ghost function Held(): set<Buf>
      reads this`bufs, cache.all
    {
      set x | x in cache.all && x.refcnt > 0 && x !in bufs
    }

    lemma HeldCount()
      requires cache.Valid() && HeaderOk() && PinnedFrom(0)
      ensures |cache.Referenced()| == n + |Held()|
    {
      CountDistinct(bufs);
      var pinned := set x | x in bufs;
      assert forall x :: x in pinned ==> x in cache.all && x.refcnt > 0;
      assert cache.Referenced() == pinned + Held() && pinned !! Held();
    }

    /** commit() finds a buffer for its first log block if and only if that block is cached, or the buffers of the
        transaction and those that others refer to are fewer than NBUF. */
    lemma CommitRoom()
      requires Valid()
      ensures cache.CanGet(L.start + 1) <==> cache.IsCached(L.start + 1) || n + |Held()| < NBUF
    {
      hide Cache.CanGet, Cache.Contents, Cache.Linked;
      HeldCount();
      cache.CanGetCount(L.start + 1);
    }

    lemma SharedHeld(others: set<Buf>)
      requires cache.Valid() && HeaderOk() && PinnedFrom(0) && Shared(others)
      ensures Held() == others
    {
    }

    /** If others have all the buffers that the transaction has not, there is none for a log block. */
    lemma NoRoom(others: set<Buf>)
      requires cache.Valid() && HeaderOk() && PinnedFrom(0) && Shared(others) && !Fits(others) && n > 0
      ensures !cache.CanGet(L.start + 1)
    {
      HeldCount();
      cache.CanGetCount(L.start + 1);
      SharedHeld(others);
      NotCached(others);
    }

    lemma NotCached(others: set<Buf>)
      requires cache.Valid() && HeaderOk() && PinnedFrom(0) && Shared(others) && !Fits(others) && n > 0
      ensures !cache.IsCached(L.start + 1)
    {
      HeldCount();
      SharedHeld(others);
      SubsetSize(cache.Referenced(), cache.all);
      forall x | x in cache.all
        ensures !cache.Caches(x, L.start + 1)
      {
        assert x in cache.Referenced();
        if x in bufs {
          BufsLogged();
        }
      }
    }

    /** write_log(): copy modified blocks from cache to log. The result is false when the kernel panics "bget:
        no buffers", which happens before anything is written, and if and only if all buffers are taken. */
    method WriteLog(ghost others: set<Buf>) returns (ok: bool)
      requires Valid() && Shared(others)
      modifies cache, cache.head`prev, cache.head`next, cache.disk, cache.all`prev, cache.all`next
      modifies cache.all`dev, cache.all`blockno, cache.all`valid, cache.all`refcnt
      modifies cache.all`waiters, cache.all`locked, cache.all`data
      ensures cache.Valid() && HeaderOk() && PinnedFrom(0) && Shared(others) && (ok <==> n == 0 || Fits(others))
      ensures !ok ==> Untouched(old(cache.disk.blocks), old(cache.view), old(cache.disk.trace))
      ensures ok ==> var ws := LogCopies(L, old(cache.view), Logged());
                     After(old(cache.disk.blocks), old(cache.view), old(cache.disk.trace), ws,
                           cache.disk.blocks, cache.view, cache.disk.trace)
    {
      hide Cache.Contents, Cache.Linked, Cache.InUse, Cache.CanGetPair, Cache.CanGet, Apply, After, LogCopies, Installs;
      var tail := 0;
      ghost var d0, v0, t0 := cache.disk.blocks, cache.view, cache.disk.trace;
      ghost var ws := LogCopies(L, v0, Logged());
      AfterNothing(ws);
      assert |d0| == |v0|;
      while tail < n
        invariant 0 <= tail <= n && |cache.view| == |v0|
        invariant cache.Valid() && PinnedFrom(0) && Shared(others)
        invariant After(d0, v0, t0, ws[..tail], cache.disk.blocks, cache.view, cache.disk.trace)
        invariant Fits(others) || (tail == 0 && Untouched(d0, v0, t0))
      {
        CopySource(L, d0, v0, t0, Logged(), tail, cache.disk.blocks, cache.view, cache.disk.trace);
        AfterStep(d0, v0, t0, ws, tail, cache.disk.blocks, cache.view, cache.disk.trace);
        ok := CopyOne(tail, others);
        if !ok {
          return;
        }
        tail := tail + 1;
      }
      assert ws[..tail] == ws;
      ok := true;
    }

    /** One turn of write_log()'s loop; only the first can lack a buffer. */
    method CopyOne(tail: nat, ghost others: set<Buf>) returns (ok: bool)
      requires cache.Valid() && HeaderOk() && PinnedFrom(0) && Shared(others) && tail < n
      requires Fits(others) || tail == 0
      requires L.start + tail + 1 < |cache.view| && block[tail] != L.start + tail + 1
      modifies cache, cache.head`prev, cache.head`next, cache.disk, cache.all`prev, cache.all`next
      modifies cache.all`dev, cache.all`blockno, cache.all`valid, cache.all`refcnt
      modifies cache.all`waiters, cache.all`locked, cache.all`data
      ensures cache.Valid() && PinnedFrom(0) && Shared(others) && (ok <==> Fits(others))
      ensures !ok ==> Untouched(old(cache.disk.blocks), old(cache.view), old(cache.disk.trace))
      ensures ok ==> var w := Write(L.start + tail + 1, old(cache.view)[block[tail]]);
                     && cache.disk.trace == old(cache.disk.trace) + [w]
                     && cache.disk.blocks == old(cache.disk.blocks)[w.bn := w.data]
                     && cache.view == old(cache.view)[w.bn := w.data]
    {
      hide Cache.Contents, Cache.Linked, Cache.InUse, Cache.CanGetPair, Cache.CanGet;
      if Fits(others) {
        Room(0, tail, others);
        cache.PairRoom(L.start + tail + 1, block[tail]);
      } else {
        NoRoom(others);
      }
      ok := cache.CopyToLog(block[tail], L.start + tail + 1, others);
    }

    /** Nothing has been written. */
    ghost predicate Untouched(disk: Image, view: Image, trace: seq<Write>)
      reads cache, cache.disk
    {
      cache.disk.blocks == disk && cache.view == view && cache.disk.trace == trace
    }

    lemma AfterNothing(ws: seq<Write>)
      requires cache.Valid()
      ensures After(cache.disk.blocks, cache.view, cache.disk.trace, ws[..0],
                    cache.disk.blocks, cache.view, cache.disk.trace)
    {
    }

    /** write_head(): store the in-memory header on disk, the commit point when n > 0. */
    method WriteHead(ghost others: set<Buf>)
      requires cache.Valid() && HeaderOk() && Shared(others) && cache.CanGet(L.start)
      modifies cache, cache.head`prev, cache.head`next, cache.disk, cache.all`prev, cache.all`next
      modifies cache.all`dev, cache.all`blockno, cache.all`valid, cache.all`refcnt
      modifies cache.all`waiters, cache.all`locked, cache.all`data
      ensures cache.Valid() && Shared(others)
      ensures var hb := WithHeader(old(cache.view)[L.start], Logged());
              && cache.disk.trace == old(cache.disk.trace) + [Write(L.start, hb)]
              && cache.disk.blocks == old(cache.disk.blocks)[L.start := hb]
              && cache.view == old(cache.view)[L.start := hb]
      ensures forall x :: x in cache.all && x.pins > 0 ==> x.dev == old(x.dev) && x.blockno == old(x.blockno)
    {
      hide Cache.Valid, Cache.MovedToFront, Cache.CanGet, Cache.InUse, WordAt, WithHeader;
      var buf := cache.BReadFree(L.start, others);
      var hb := FillHeader(buf.data);
      cache.Store(buf, hb);
      cache.BWrite(buf);
      cache.BRelseFree(buf, others);
    }

    /** The assignments to hb->n and hb->block[] in write_head(). */
    method FillHeader(was: Block) returns (hb: Block)
      requires n <= block.Length == LOGSIZE
      ensures hb == WithHeader(was, Logged())
    {
      hide WordAt, PutWord;
      hb := PutWord(was, 0, n);
      var i := 0;
      while i < n
        invariant 0 <= i <= n
        invariant hb == PutEntries(PutWord(was, 0, n), Logged(), i)
      {
        hb := PutWord(hb, i + 1, block[i]);
        i := i + 1;
      }
    }

    /** install_trans(): copy committed blocks from log to their home location. */
    method InstallTrans(recovering: bool, ghost others: set<Buf>)
      requires cache.Valid() && HeaderOk() && Shared(others)
      requires !recovering ==> PinnedFrom(0) && Fits(others)
      requires recovering ==> others == {} && forall x :: x in cache.all ==> x.pins == 0
      modifies cache, cache.head`prev, cache.head`next, cache.disk, cache.all`prev, cache.all`next
      modifies cache.all`dev, cache.all`blockno, cache.all`valid, cache.all`refcnt
      modifies cache.all`waiters, cache.all`locked, cache.all`data, cache.all`pins
      ensures cache.Valid() && Shared(others)
      ensures forall x :: x in cache.all ==> x.pins == 0
      ensures var ws := Installs(L, old(cache.view), Logged());
              After(old(cache.disk.blocks), old(cache.view), old(cache.disk.trace), ws,
                    cache.disk.blocks, cache.view, cache.disk.trace)
    {
      hide Cache.Contents, Cache.Linked, Cache.InUse, Cache.CanGetPair, Apply, After, LogCopies, Installs;
      var tail := 0;
      ghost var d0, v0, t0 := cache.disk.blocks, cache.view, cache.disk.trace;
      ghost var ws := Installs(L, v0, Logged());
      AfterNothing(ws);
      assert |d0| == |v0|;
      while tail < n
        invariant 0 <= tail <= n && |cache.view| == |v0|
        invariant cache.Valid() && Shared(others)
        invariant if recovering then forall x :: x in cache.all ==> x.pins == 0 else PinnedFrom(tail)
        invariant After(d0, v0, t0, ws[..tail], cache.disk.blocks, cache.view, cache.disk.trace)
      {
        InstallSource(L, d0, v0, t0, Logged(), tail, cache.disk.blocks, cache.view, cache.disk.trace);
        AfterStep(d0, v0, t0, ws, tail, cache.disk.blocks, cache.view, cache.disk.trace);
        if recovering {
          RoomWhenRecovering(L.start + tail + 1, block[tail]);
          cache.Install(L.start + tail + 1, block[tail], true, others);
        } else {
          InstallPinned(tail, others);
        }
        tail := tail + 1;
      }
      assert ws[..tail] == ws;
    }

    method InstallPinned(tail: nat, ghost others: set<Buf>)
      requires cache.Valid() && HeaderOk() && Shared(others) && Fits(others) && tail < n && PinnedFrom(tail)
      requires L.start + tail + 1 < |cache.view| && block[tail] != L.start + tail + 1
      modifies cache, cache.head`prev, cache.head`next, cache.disk, cache.all`prev, cache.all`next
      modifies cache.all`dev, cache.all`blockno, cache.all`valid, cache.all`refcnt
      modifies cache.all`waiters, cache.all`locked, cache.all`data, cache.all`pins
      ensures cache.Valid() && Shared(others) && PinnedFrom(tail + 1)
      ensures var w := Write(block[tail], old(cache.view)[L.start + tail + 1]);
              && cache.disk.trace == old(cache.disk.trace) + [w]
              && cache.disk.blocks == old(cache.disk.blocks)[w.bn := w.data]
              && cache.view == old(cache.view)[w.bn := w.data]
    {
      hide Cache.Contents, Cache.Linked, Cache.InUse, Cache.CanGetPair;
      assert cache.Caches(bufs[tail], block[tail]);
      Room(tail, tail, others);
      cache.Install(L.start + tail + 1, block[tail], false, others);
    }

    lemma RoomWhenRecovering(bn1: nat, bn2: nat)
      requires cache.Valid() && cache.InUse({}) && forall x :: x in cache.all ==> x.pins == 0
      ensures cache.CanGetPair(bn1, bn2)
    {
      var x :| x in cache.all;
      assert |cache.all - {x}| == NBUF - 1;
      var y :| y in cache.all - {x};
    }

    lemma RoomForOne(bn: nat, others: set<Buf>)
      requires cache.Valid() && cache.InUse(others) && |others| < NBUF && forall x :: x in cache.all ==> x.pins == 0
      ensures cache.CanGet(bn)
    {
      cache.RoomForBlock(others, bn);
    }

    /** read_head(): load the on-disk header. */
    method ReadHead()
      requires cache.Valid() && cache.InUse({}) && cache.CanGet(L.start) && block.Length == LOGSIZE
      requires L.start < |cache.view| && HeaderN(cache.view[L.start]) <= LOGSIZE
      modifies this`n, block, cache, cache.head`prev, cache.head`next, cache.all`prev, cache.all`next
      modifies cache.all`dev, cache.all`blockno, cache.all`valid, cache.all`refcnt
      modifies cache.all`waiters, cache.all`locked, cache.all`data
      ensures cache.Valid() && cache.InUse({}) && cache.view == old(cache.view)
      ensures n <= LOGSIZE && Logged() == HeaderBlocks(cache.view[L.start])
    {
      hide Cache.Valid, Cache.MovedToFront, Cache.CanGet, WordAt, WithHeader;
      var buf := cache.BRead(L.start);
      n := HeaderN(buf.data);
      var i := 0;
      while i < n
        modifies block
        invariant 0 <= i <= n
        invariant forall k :: 0 <= k < i ==> block[k] == WordAt(buf.data, k + 1)
      {
        block[i] := WordAt(buf.data, i + 1);
        i := i + 1;
      }
      cache.BRelse(buf);
    }

    /** recover_from_log(): the block writes are those of RecoveryWrites, whatever the disk held. */
    method RecoverFromLog()
      requires cache.Valid() && cache.InUse({}) && block.Length == LOGSIZE && bufs == []
      requires cache.view == cache.disk.blocks && |cache.view| <= 0x1_0000_0000
      requires WellFormed(L, cache.disk.blocks)
      requires forall x :: x in cache.all ==> x.pins == 0
      modifies this`n, block, cache, cache.head`prev, cache.head`next, cache.disk
      modifies cache.all`prev, cache.all`next
      modifies cache.all`dev, cache.all`blockno, cache.all`valid, cache.all`refcnt
      modifies cache.all`waiters, cache.all`locked, cache.all`data, cache.all`pins
      ensures Valid() && cache.InUse({}) && n == 0 && cache.view == cache.disk.blocks
      ensures cache.disk.trace == old(cache.disk.trace) + RecoveryWrites(L, old(cache.disk.blocks))
      ensures cache.disk.blocks == Apply(old(cache.disk.blocks), RecoveryWrites(L, old(cache.disk.blocks)))
    {
      hide Cache.Contents, Cache.Linked, Cache.InUse, Cache.CanGetPair, WordAt, WithHeader;
      hide Apply, Installs, RecoveryWrites, Loggable, PinnedFrom, HeaderBlocks;
      ghost var d := cache.disk.blocks;
      RoomForOne(L.start, {});
      ReadHead();
      InstallTrans(true, {});
      n := 0;
      NothingLogged();
      RoomForOne(L.start, {});
      WriteHead({});
      RecoverySteps(L, d);
      NothingLogged();
    }

    lemma NothingLogged()
      requires n == 0 && bufs == [] && block.Length == LOGSIZE && |cache.view| <= 0x1_0000_0000
      requires 1 <= L.size && L.start + L.size <= |cache.view|
      requires forall x :: x in cache.all ==> x.pins == 0
      ensures HeaderOk() && PinnedFrom(0)
    {
    }

    /** Only logged blocks differ from the disk. */
    lemma Unlogged(bn: nat)
      requires cache.Valid() && n <= block.Length && PinnedFrom(0)
      requires bn < |cache.view| && bn !in Logged()
      ensures bn < |cache.disk.blocks| && cache.view[bn] == cache.disk.blocks[bn]
    {
    }

    /** commit(): the block writes are those of CommitWrites, and afterwards nothing is pending. The result is
        false when the kernel panics "bget: no buffers"; then nothing has been written. */
    method Commit(ghost others: set<Buf>) returns (ok: bool)
      requires Valid() && Shared(others)
      modifies this`n, this`bufs, cache, cache.head`prev, cache.head`next, cache.disk
      modifies cache.all`prev, cache.all`next
      modifies cache.all`dev, cache.all`blockno, cache.all`valid, cache.all`refcnt
      modifies cache.all`waiters, cache.all`locked, cache.all`data, cache.all`pins
      ensures Valid() && Shared(others) && (ok <==> old(n) == 0 || old(Fits(others)))
      ensures !ok ==>
                Logged() == old(Logged()) && Untouched(old(cache.disk.blocks), old(cache.view), old(cache.disk.trace))
      ensures ok ==> n == 0 && SameHome(L, cache.view, old(cache.view))
      ensures ok ==> var ws := CommitWrites(L, old(cache.disk.blocks), old(cache.view), old(Logged()));
                     && cache.disk.trace == old(cache.disk.trace) + ws
                     && cache.disk.blocks == Apply(old(cache.disk.blocks), ws)
    {
      ok := true;
      if n > 0 {
        ok := CommitNonEmpty(others);
      }
    }

    /** write_log() and the first write_head(). */
    method CommitLog(ghost others: set<Buf>) returns (ok: bool)
      requires Valid() && Shared(others) && n > 0
      modifies cache, cache.head`prev, cache.head`next, cache.disk
      modifies cache.all`prev, cache.all`next
      modifies cache.all`dev, cache.all`blockno, cache.all`valid, cache.all`refcnt
      modifies cache.all`waiters, cache.all`locked, cache.all`data
      ensures cache.Valid() && PinnedFrom(0) && HeaderOk() && Shared(others) && (ok <==> Fits(others))
      ensures !ok ==> Untouched(old(cache.disk.blocks), old(cache.view), old(cache.disk.trace))
      ensures ok ==> var ws := LogCopies(L, old(cache.view), Logged());
                     var v1 := Apply(old(cache.view), ws);
                     var hb := WithHeader(v1[L.start], Logged());
                     && cache.disk.trace == old(cache.disk.trace) + ws + [Write(L.start, hb)]
                     && cache.disk.blocks == Apply(old(cache.disk.blocks), ws)[L.start := hb]
                     && cache.view == v1[L.start := hb]
    {
      hide Cache.Contents, Cache.Linked, Cache.InUse, Cache.CanGetPair, WordAt, WithHeader, Apply, LogCopies;
      ok := WriteLog(others);
      if !ok {
        return;
      }
      RoomFor(0, others);
      WriteHead(others);
    }

    /** install_trans() and the second write_head(). */
    method CommitHome(ghost others: set<Buf>)
      requires cache.Valid() && HeaderOk() && PinnedFrom(0) && Shared(others) && Fits(others)
      modifies this`n, this`bufs, cache, cache.head`prev, cache.head`next, cache.disk
      modifies cache.all`prev, cache.all`next
      modifies cache.all`dev, cache.all`blockno, cache.all`valid, cache.all`refcnt
      modifies cache.all`waiters, cache.all`locked, cache.all`data, cache.all`pins
      ensures cache.Valid() && HeaderOk() && PinnedFrom(0) && Shared(others) && n == 0
      ensures var ins := Installs(L, old(cache.view), old(Logged()));
              var hb := WithHeader(Apply(old(cache.view), ins)[L.start], []);
              && cache.disk.trace == old(cache.disk.trace) + ins + [Write(L.start, hb)]
              && cache.disk.blocks == Apply(old(cache.disk.blocks), ins)[L.start := hb]
              && cache.view == Apply(old(cache.view), ins)[L.start := hb]
    {
      hide Cache.Contents, Cache.Linked, Cache.InUse, Cache.CanGetPair, WordAt, WithHeader, Apply, Installs;
      InstallTrans(false, others);
      n, bufs := 0, [];
      RoomForOne(L.start, others);
      WriteHead(others);
    }

    method CommitNonEmpty(ghost others: set<Buf>) returns (ok: bool)
      requires Valid() && Shared(others) && 0 < n
      modifies this`n, this`bufs, cache, cache.head`prev, cache.head`next, cache.disk
      modifies cache.all`prev, cache.all`next
      modifies cache.all`dev, cache.all`blockno, cache.all`valid, cache.all`refcnt
      modifies cache.all`waiters, cache.all`locked, cache.all`data, cache.all`pins
      ensures Valid() && Shared(others) && (ok <==> old(Fits(others)))
      ensures !ok ==>
                Logged() == old(Logged()) && Untouched(old(cache.disk.blocks), old(cache.view), old(cache.disk.trace))
      ensures ok ==> n == 0 && SameHome(L, cache.view, old(cache.view))
      ensures ok ==> var ws := CommitWrites(L, old(cache.disk.blocks), old(cache.view), old(Logged()));
                     && cache.disk.trace == old(cache.disk.trace) + ws
                     && cache.disk.blocks == Apply(old(cache.disk.blocks), ws)
    {
      ghost var d0, v0, bs := cache.disk.blocks, cache.view, Logged();
      assert |d0| == |v0| && bs != [];
      hide Cache.Contents, Cache.Linked, Cache.InUse, Cache.CanGetPair, WordAt, WithHeader;
      hide Apply, Installs, LogCopies, PinnedFrom, CommitWrites, SameHome;
      Unlogged(L.start);
      CommitSteps(L, d0, v0, cache.disk.trace, bs);
      ok := CommitLog(others);
      if !ok {
        return;
      }
      ghost var v2 := cache.view;
      CommitHome(others);
      ViewAfterCommit(L, v0, bs, v2, cache.view);
      CommitPrefixMeaning(L, d0, v0, bs, |CommitWrites(L, d0, v0, bs)|);
    }

    /** commit() changes nothing that clients see outside the log. */
    static lemma ViewAfterCommit(L: Layout, v0: Image, bs: seq<Word>, v2: Image, v3: Image)
      requires Loggable(L, |v0|, bs) && 1 <= L.size && |v2| == |v0| == |v3|
      requires v2 == Apply(v0, LogCopies(L, v0, bs))[L.start := v2[L.start]]
      requires v3 == Apply(v2, Installs(L, v2, bs))[L.start := v3[L.start]]
      ensures SameHome(L, v3, v0)
    {
      hide Apply, Installs, LogCopies;
      forall bn | 0 <= bn < |v0| && !L.InLog(bn)
        ensures v3[bn] == v0[bn]
      {
        HomeAfterCommit(L, v0, bs, v2[L.start], bn);
      }
    }

    static lemma HomeAfterCommit(L: Layout, v0: Image, bs: seq<Word>, hb: Block, bn: nat)
      requires Loggable(L, |v0|, bs) && 1 <= L.size && bn < |v0| && !L.InLog(bn)
      ensures var v2 := Apply(v0, LogCopies(L, v0, bs))[L.start := hb];
              L.start + 1 + |bs| <= |v2| && Apply(v2, Installs(L, v2, bs))[bn] == v0[bn]
    {
      hide Apply;
      var ws := LogCopies(L, v0, bs);
      var v2 := Apply(v0, ws)[L.start := hb];
      var ins := Installs(L, v2, bs);
      ApplyMiss(v0, ws, bn);
      if bn in bs {
        var i :| 0 <= i < |bs| && bs[i] == bn;
        ApplyHit(v0, ws, i);
        ApplyHit(v2, ins, i);
      } else {
        ApplyMiss(v2, ins, bn);
      }
    }

    /** begin_op(), one turn of its loop under log.lock; false means that it goes to sleep. Whoever is admitted
        keeps the log large enough for all operations under way. */
    method BeginOp() returns (admitted: bool)
      requires Valid()
      modifies this`outstanding
      ensures Valid()
      ensures admitted <==> !committing && n + (old(outstanding) + 1) * MAXOPBLOCKS <= LOGSIZE
      ensures outstanding == old(outstanding) + if admitted then 1 else 0
    {
      if committing {
        admitted := false;
      } else if n + (outstanding + 1) * MAXOPBLOCKS > LOGSIZE {
        admitted := false;
      } else {
        outstanding := outstanding + 1;
        admitted := true;
      }
    }

    /** log_write(): b's data becomes the block's contents and b stays pinned until the commit.
        The result is false when the kernel panics. */
    method LogWrite(b: Buf) returns (ok: bool)
      requires Valid() && cache.Holds(b) && !L.InLog(b.blockno)
      modifies this`n, this`bufs, block, cache`view, b`refcnt, b`pins
      ensures Valid() && (ok <==> old(n) < LOGSIZE && old(n) + 1 < L.size && outstanding >= 1)
      ensures !ok ==> Logged() == old(Logged()) && cache.view == old(cache.view)
      ensures ok ==> Logged() == Absorb(old(Logged()), b.blockno)
      ensures ok ==> cache.view == old(cache.view)[b.blockno := b.data]
      ensures Held() == if ok then old(Held()) - {b} else old(Held())
    {
      hide Cache.Contents, Cache.Linked, Cache.InUse, WordAt, Loggable, PinnedFrom, Clean;
      InRange(b);
      if n >= LOGSIZE || n >= L.size - 1 {
        return false;
      }
      if outstanding < 1 {
        return false;
      }
      var i := Slot(b.blockno);
      if i == n {
        Append(b);
      } else {
        SlotPinned(i, b);
      }
      assert Held() == old(Held()) - {b};
      cache.Publish(b);
      ok := true;
    }

    /** bread() by a client of the log. It panics only if no buffer is free. */
    method Get(bn: nat) returns (b: Buf?)
      requires Valid() && bn < |cache.view| && forall x :: x in cache.all && cache.Caches(x, bn) ==> !x.locked
      modifies cache.all`dev, cache.all`blockno, cache.all`valid, cache.all`refcnt
      modifies cache.all`waiters, cache.all`locked, cache.all`data
      ensures Valid()
      ensures b == null ==> n + |Held()| >= NBUF && Held() == old(Held())
      ensures b != null ==> cache.Caches(b, bn) && cache.Holds(b) && b.data == cache.view[bn]
      ensures b != null ==> Held() == if old(b.refcnt) == 0 then old(Held()) + {b} else old(Held())
      ensures b != null && old(b.refcnt) == 0 ==> b !in old(Held()) && n + |old(Held())| < NBUF
    {
      hide Cache.Linked, Cache.CanGet, Cache.Contents, Clean, HeaderOk;
      HeldCount();
      cache.CanGetCount(bn);
      Referenceless();
      b := cache.BRead(bn);
      Locked(b);
      assert b == null ==> Held() == old(Held());
      assert b != null && old(b.refcnt) > 0 ==> Held() == old(Held());
      assert b != null && old(b.refcnt) == 0 ==> Held() == old(Held()) + {b};
    }

    /** An unreferenced buffer is not the transaction's, and leaves fewer than NBUF referenced ones. */
    lemma Referenceless()
      requires cache.Valid() && HeaderOk() && PinnedFrom(0)
      ensures forall x :: x in cache.all && x.refcnt == 0 ==> x !in bufs && |cache.Referenced()| < NBUF
    {
      SubsetSize(cache.Referenced(), cache.all);
    }

    lemma Locked(b: Buf?)
      requires cache.Valid()
      ensures b != null && b in cache.all && b.locked ==> b.refcnt > 0
    {
    }

    /** brelse() by a client of the log. */
    method Put(b: Buf)
      requires Valid() && cache.Holds(b) && b.data == cache.view[b.blockno]
      modifies cache`nodes, cache.head`prev, cache.head`next, cache.all`prev, cache.all`next, b`locked, b`refcnt
      ensures Valid() && Held() == if b.refcnt == 0 then old(Held()) - {b} else old(Held())
      ensures b.refcnt == 0 ==> b in old(Held())
    {
      hide Cache.Linked, Cache.Contents, Cache.MovedToFront, Clean, HeaderOk;
      Locked(b);
      cache.BRelse(b);
      Referenceless();
      assert b.refcnt > 0 ==> Held() == old(Held());
      assert b.refcnt == 0 ==> Held() == old(Held()) - {b};
    }

    /** A block that is new to the transaction: pin it and give it slot n. */
    method Append(b: Buf)
      requires cache.Valid() && HeaderOk() && PinnedFrom(0) && cache.Holds(b)
      requires !L.InLog(b.blockno) && n < LOGSIZE && n + 1 < L.size && b.blockno !in Logged()
      modifies this`n, this`bufs, block, b`refcnt, b`pins
      ensures cache.Valid() && HeaderOk() && PinnedFrom(0) && b.pins > 0
      ensures Logged() == old(Logged()) + [b.blockno] && bufs == old(bufs) + [b]
    {
      hide Cache.Contents, Cache.Linked, Cache.InUse, WordAt;
      InRange(b);
      BufsLogged();
      assert b !in bufs;
      cache.BPin(b);
      block[n] := b.blockno;
      n, bufs := n + 1, bufs + [b];
      assert Logged() == old(Logged()) + [b.blockno];
    }

    lemma BufsLogged()
      requires n <= block.Length && PinnedFrom(0)
      ensures forall x :: x in bufs ==> x.blockno in Logged()
    {
    }

    lemma InRange(b: Buf)
      requires cache.Valid() && cache.Holds(b)
      ensures b.blockno < |cache.view|
    {
    }

    /** The loop of log_write(): the block's slot, or n. */
    method Slot(bn: nat) returns (i: nat)
      requires n <= block.Length
      ensures i <= n && (i < n ==> block[i] == bn) && (i == n ==> bn !in Logged())
    {
      i := 0;
      while i < n && block[i] != bn
        invariant 0 <= i <= n && bn !in block[..i]
      {
        i := i + 1;
      }
    }

    lemma SlotPinned(i: nat, b: Buf)
      requires cache.Valid() && n <= block.Length && PinnedFrom(0) && i < n
      requires cache.Holds(b) && b.blockno == block[i]
      ensures b.pins > 0 && b in bufs
    {
    }

    /** end_op(): the last operation out commits. The result is false when the kernel panics: if a commit is
        under way, or for want of a buffer; then nothing has been written. */
    method EndOp(ghost others: set<Buf>) returns (ok: bool)
      requires Valid() && outstanding >= 1 && (outstanding == 1 ==> Shared(others))
      modifies this`n, this`bufs, this`outstanding, this`committing
      modifies cache, cache.head`prev, cache.head`next, cache.disk, cache.all`prev, cache.all`next
      modifies cache.all`dev, cache.all`blockno, cache.all`valid, cache.all`refcnt
      modifies cache.all`waiters, cache.all`locked, cache.all`data, cache.all`pins
      ensures Valid() && outstanding == old(outstanding) - 1
      ensures ok <==> !old(committing) && (old(outstanding) == 1 ==> old(n) == 0 || old(Fits(others)))
      ensures outstanding == 0 ==> Shared(others)
      ensures !ok ==>
                Logged() == old(Logged()) && Untouched(old(cache.disk.blocks), old(cache.view), old(cache.disk.trace))
      ensures ok ==> !committing && SameHome(L, cache.view, old(cache.view))
      ensures ok ==> var ws := if old(outstanding) > 1 then []
                               else CommitWrites(L, old(cache.disk.blocks), old(cache.view), old(Logged()));
                     && cache.disk.trace == old(cache.disk.trace) + ws
                     && cache.disk.blocks == Apply(old(cache.disk.blocks), ws)
      ensures ok ==> Logged() == if old(outstanding) > 1 then old(Logged()) else []
      ensures old(outstanding) > 1 ==> Held() == old(Held())
    {
      hide Cache.Valid, Cache.InUse, WordAt, CommitWrites, HeaderOk, PinnedFrom, Clean;
      outstanding := outstanding - 1;
      if committing {
        return false;
      }
      ok := true;
      if outstanding == 0 {
        committing := true;
        ok := Commit(others);
        if !ok {
          return;
        }
        committing := false;
      }
    }
  }
}
