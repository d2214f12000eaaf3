/** The logging layer on the buffer cache takes the steps of module GroupCommit, so what every run of those
    guarantees holds for the layer: begin_op(), log_write() and end_op() with its commit(), and bread() and brelse()
    of home blocks, by any processes. */
module LogRefinement {
  import opened Common
  import opened Blocks
  import opened RedoLog
  import opened BufferCache
  import opened Log
  import opened FileSystem
  import G = GroupCommit

  /** The layer is in the state s of the protocol. Outside the log, clients see the same. */
  ghost predicate Matches(log: LogLayer, s: G.State)
    reads log, log.block, log.cache, log.cache.disk, log.cache.head, log.cache.all, log.cache.nodes
  {
    && log.Valid() && s.lh == log.Logged() && s.outstanding == log.outstanding && s.committing == log.committing
    && s.disk == log.cache.disk.blocks && SameHome(log.L, s.view, log.cache.view) && s.held == |log.Held()|
  }

  /** After initlog() the protocol begins, for any number of processes. */
  lemma Booted(log: LogLayer, nproc: nat) returns (s: G.State)
    requires log.Valid() && log.n == 0 && log.outstanding == 0 && !log.committing
    requires log.cache.view == log.cache.disk.blocks && log.cache.InUse({})
    ensures G.Init(log.L, s) && Matches(log, s) && |s.ops| == nproc
  {
    var d := log.cache.disk.blocks;
    log.SharedHeld({});
    s := G.State(d, d, [], 0, false, 0, seq(nproc, _ => G.Idle), 0, 0, d, [], [], d);
  }

  /** begin_op() admits an operation exactly when the protocol does. */
  method Begin(log: LogLayer, ghost s: G.State, ghost p: nat) returns (admitted: bool, ghost t: G.State)
    requires Matches(log, s) && p < |s.ops| && s.ops[p].Idle?
    modifies log`outstanding
    ensures admitted <==> G.Enabled(log.L, s, G.BeginOp(p))
    ensures t == if admitted then G.Take(log.L, s, G.BeginOp(p)) else s
    ensures Matches(log, t)
  {
    hide Cache.Contents, Cache.Linked, LogLayer.HeaderOk, LogLayer.PinnedFrom, Clean;
    StillLogged(log);
    admitted := log.BeginOp();
    t := if admitted then G.Take(log.L, s, G.BeginOp(p)) else s;
  }

  lemma StillLogged(log: LogLayer)
    requires log.Valid()
    ensures log.n <= LOGSIZE == log.block.Length && |log.Logged()| == log.n
  {
  }

  /** log_write() by an operation inside its budget takes the protocol's step, or panics when that is too big. */
  method Write(log: LogLayer, b: Buf, ghost s: G.State, ghost p: nat) returns (ok: bool, ghost t: G.State)
    requires Matches(log, s) && G.Inv(log.L, s) && log.cache.Holds(b) && b.blockno < 0x1_0000_0000
    requires G.Disciplined(log.L, s, p, b.blockno)
    modifies log`n, log`bufs, log.block, log.cache`view, b`refcnt, b`pins
    ensures ok <==> G.Enabled(log.L, s, G.LogWrite(p, b.blockno, b.data))
    ensures ok <==> !G.TooBig(log.L, s)
    ensures t == if ok then G.Take(log.L, s, G.LogWrite(p, b.blockno, b.data)) else s
    ensures Matches(log, t)
  {
    hide Cache.Valid, LogLayer.HeaderOk, LogLayer.PinnedFrom, LogLayer.Held, Clean, G.DataOk, G.IdsOk, SameHome;
    G.CountBounds(s.ops, p);
    StillLogged(log);
    log.InRange(b);
    HeldUnlessLogged(log, b);
    HomeWrite(log.L, s.view, log.cache.view, b.blockno, b.data);
    ghost var held := log.Held();
    ok := log.LogWrite(b);
    assert |held - {b}| == |held| - if b in held then 1 else 0;
    t := if ok then G.Take(log.L, s, G.LogWrite(p, b.blockno, b.data)) else s;
  }

  lemma HomeWrite(L: Layout, a: Image, b: Image, bn: nat, data: Block)
    requires SameHome(L, a, b) && bn < |b|
    ensures SameHome(L, Do(a, RedoLog.Write(bn, data)), b[bn := data])
  {
  }

  /** A buffer that someone has locked counts as held unless it is the transaction's. */
  lemma HeldUnlessLogged(log: LogLayer, b: Buf)
    requires log.Valid() && log.cache.Holds(b)
    ensures b in log.Held() <==> b.blockno !in log.Logged()
  {
    if b.blockno in log.Logged() {
      var i :| 0 <= i < log.n && log.block[i] == b.blockno;
      log.SlotPinned(i, b);
    } else if b in log.bufs {
      log.BufsLogged();
    }
  }

  /** bread() of a home block, by an operation or a reader: if the buffer was in nobody's use, it is held now; the
      panic means that none is free. */
  method Get(log: LogLayer, bn: nat, ghost s: G.State) returns (b: Buf?, ghost t: G.State)
    requires Matches(log, s) && !s.committing && bn < |log.cache.view|
    requires forall x :: x in log.cache.all && log.cache.Caches(x, bn) ==> !x.locked
    modifies log.cache.all`dev, log.cache.all`blockno, log.cache.all`valid, log.cache.all`refcnt
    modifies log.cache.all`waiters, log.cache.all`locked, log.cache.all`data
    ensures b == null ==> !G.BufferFree(s) && t == s
    ensures b != null ==> log.cache.Caches(b, bn) && log.cache.Holds(b) && b.data == log.cache.view[bn]
    ensures b != null && old(b.refcnt) == 0 ==> G.Enabled(log.L, s, G.Hold) && t == G.Take(log.L, s, G.Hold)
    ensures b != null && old(b.refcnt) > 0 ==> t == s
    ensures Matches(log, t)
  {
    hide Cache.Valid, LogLayer.HeaderOk, LogLayer.PinnedFrom, Clean, SameHome, LogLayer.Held;
    StillLogged(log);
    ghost var held := log.Held();
    b := log.Get(bn);
    t := s;
    if b != null && old(b.refcnt) == 0 {
      assert |held + {b}| == |held| + 1;
      t := G.Take(log.L, s, G.Hold);
    }
  }

  /** brelse(): a buffer that is in nobody's use any more is free. */
  method Put(log: LogLayer, b: Buf, ghost s: G.State) returns (ghost t: G.State)
    requires Matches(log, s) && log.cache.Holds(b) && b.data == log.cache.view[b.blockno]
    modifies log.cache`nodes, log.cache.head`prev, log.cache.head`next, log.cache.all`prev, log.cache.all`next
    modifies b`locked, b`refcnt
    ensures b.refcnt == 0 ==> G.Enabled(log.L, s, G.Release) && t == G.Take(log.L, s, G.Release)
    ensures b.refcnt > 0 ==> t == s
    ensures Matches(log, t)
  {
    hide Cache.Valid, LogLayer.HeaderOk, LogLayer.PinnedFrom, Clean, SameHome, LogLayer.Held;
    StillLogged(log);
    ghost var held := log.Held();
    log.Put(b);
    t := s;
    if b.refcnt == 0 {
      assert |held - {b}| == |held| - 1;
      t := G.Take(log.L, s, G.Release);
    }
  }

  /** end_op() takes the protocol's step and, as the last one out, all the steps of commit(). When it panics
      for want of a buffer, the protocol is stuck in the same place. */
  method End(log: LogLayer, ghost s: G.State, ghost p: nat, ghost others: set<Buf>)
    returns (ok: bool, ghost steps: seq<G.Step>, ghost t: G.State)
    requires Matches(log, s) && G.Inv(log.L, s) && G.InOp(s, p) && (s.outstanding == 1 ==> log.Shared(others))
    modifies log`n, log`bufs, log`outstanding, log`committing
    modifies log.cache, log.cache.head`prev, log.cache.head`next, log.cache.disk, log.cache.all`prev, log.cache.all`next
    modifies log.cache.all`dev, log.cache.all`blockno, log.cache.all`valid, log.cache.all`refcnt
    modifies log.cache.all`waiters, log.cache.all`locked, log.cache.all`data, log.cache.all`pins
    ensures steps != [] && steps[0] == G.EndOp(p) && G.Run(log.L, s, steps) && t == G.After(log.L, s, steps)
    ensures ok <==> s.outstanding > 1 || s.lh == [] || G.BufferFree(s)
    ensures ok ==> Matches(log, t) && !t.committing
    ensures !ok ==>
              && G.Stuck(log.L, t)
              && t.disk == log.cache.disk.blocks
  {
    hide Cache.Contents, Cache.Linked, LogLayer.HeaderOk, LogLayer.PinnedFrom, Clean, G.IdsOk, G.Run, G.After;
    hide CommitWrites;
    hide SameHome, Apply, G.DataOk;
    G.CountBounds(s.ops, p);
    StillLogged(log);
    steps, t := OneStep(log.L, s, p);
    ghost var L, view := log.L, log.cache.view;
    NothingApplied(s.disk, []);
    if s.outstanding == 1 {
      log.SharedHeld(others);
    }
    if s.outstanding == 1 && (s.lh == [] || G.BufferFree(s)) {
      steps, t := WholeCommit(L, s, p, view);
    } else if s.outstanding == 1 {
      Stuck(L, s, t);
    }
    ok := log.EndOp(others);
    if ok && s.outstanding == 1 {
      log.SharedHeld(others);
    }
    if ok {
      HomeChain(L, s.view, view, log.cache.view);
    }
  }

  lemma HomeChain(L: Layout, a: Image, b: Image, c: Image)
    requires SameHome(L, a, b) && SameHome(L, c, b)
    ensures SameHome(L, a, c)
  {
  }

  lemma Stuck(L: Layout, s: G.State, t: G.State)
    requires s.outstanding == 1 && !s.committing && s.lh != [] && !G.BufferFree(s)
    requires t == s.(ops := t.ops, outstanding := 0, committing := true, written := 0)
    ensures G.Stuck(L, t)
  {
    G.PlanNotEmpty(L, t);
  }

  lemma OneStep(L: Layout, s: G.State, p: nat) returns (steps: seq<G.Step>, t: G.State)
    requires G.InOp(s, p) && s.outstanding >= 1 && !s.committing
    ensures steps == [G.EndOp(p)] && G.Run(L, s, steps) && t == G.After(L, s, steps) == G.Take(L, s, G.EndOp(p))
  {
    steps, t := [G.EndOp(p)], G.Take(L, s, G.EndOp(p));
    assert steps[1..] == [] && G.Run(L, t, []);
  }

  /** What the layer's cache shows outside the log decides what commit() writes. */
  lemma SamePlan(L: Layout, d: Image, v: Image, w: Image, bs: seq<Word>)
    requires Loggable(L, |d|, bs) && |v| == |d| && 1 <= L.size && SameHome(L, v, w)
    ensures CommitWrites(L, d, v, bs) == CommitWrites(L, d, w, bs)
  {
    hide Apply;
    assert LogCopies(L, v, bs) == LogCopies(L, w, bs);
  }

  /** The steps of commit(), one block write after the other. */
  lemma {:induction false} CommitRun(L: Layout, s: G.State, before: seq<G.Step>, k: nat) returns (steps: seq<G.Step>)
    requires G.Run(L, s, before)
    requires var c := G.After(L, s, before); c.committing && c.written == 0 && c.disk == c.base
    requires k == 0 || G.BufferFree(G.After(L, s, before))
    requires var c := G.After(L, s, before); CanCommit(L, c.base, c.view, c.lh) && k <= |G.Plan(L, c)|
    ensures G.Run(L, s, steps) && before <= steps
    ensures var c := G.After(L, s, before); G.After(L, s, steps) == c.(disk := Apply(c.base, G.Plan(L, c)[..k]),
                                                                       written := k)
    decreases k
  {
    hide CanCommit, CommitWrites, G.Run, G.After, Apply;
    var c := G.After(L, s, before);
    if k == 0 {
      steps := before;
      NothingApplied(c.base, G.Plan(L, c));
    } else {
      steps := CommitRun(L, s, before, k - 1);
      ApplyStep(c.base, G.Plan(L, c), k - 1);
      G.RunSnoc(L, s, steps, G.CommitWrite);
      steps := steps + [G.CommitWrite];
    }
  }

  lemma NothingApplied(d: Image, ws: seq<Write>)
    ensures ws[..0] == [] && Apply(d, ws[..0]) == d
  {
  }

  /** end_op() and the whole commit() as a run. */
  lemma WholeCommit(L: Layout, s: G.State, p: nat, view: Image) returns (steps: seq<G.Step>, t: G.State)
    requires G.Inv(L, s) && G.InOp(s, p) && s.outstanding == 1 && !s.committing && SameHome(L, s.view, view)
    requires s.lh == [] || G.BufferFree(s)
    ensures steps != [] && steps[0] == G.EndOp(p) && G.Run(L, s, steps) && t == G.After(L, s, steps)
    ensures t.lh == [] && t.outstanding == 0 && !t.committing && t.view == s.view && t.held == s.held
    ensures CanCommit(L, s.disk, view, s.lh) && 1 <= L.size
    ensures t.disk == Apply(s.disk, CommitWrites(L, s.disk, view, s.lh))
  {
    hide CommitWrites, G.Run, G.After, Apply, G.IdsOk, G.Replay, SameHome;
    var before, c := OneStep(L, s, p);
    PlanReady(L, s, view);
    steps := CommitRun(L, s, before, |G.Plan(L, c)|);
    WholePrefix(G.Plan(L, c));
    var done := G.After(L, s, steps);
    SamePlan(L, s.disk, s.view, view, s.lh);
    G.RunSnoc(L, s, steps, G.CommitDone);
    t := G.Take(L, done, G.CommitDone);
    steps := steps + [G.CommitDone];
  }

  lemma WholePrefix(ws: seq<Write>)
    ensures ws[..|ws|] == ws
  {
  }

  lemma PlanReady(L: Layout, s: G.State, view: Image)
    requires G.DataOk(L, s) && !s.committing && SameHome(L, s.view, view)
    ensures CanCommit(L, s.base, s.view, s.lh) && CanCommit(L, s.disk, view, s.lh) && s.disk == s.base && 1 <= L.size
    ensures s.lh == [] ==> CommitWrites(L, s.base, s.view, s.lh) == []
  {
  }

  /** One transaction of filewrite(), as an operation of the protocol: with more than LOGSIZE log blocks, at any
      moment of any run, it can issue its next log_write(), whether it is one of those before the last or the
      last one. So it never meets the panic "too big a transaction". */
  method FileWriteFits(fs: FileSys, i: nat, off: Word, src: seq<Byte>) returns (r: int, ghost before: set<nat>)
    requires fs.Valid() && fs.FilesOk() && i < |fs.inodes| && |src| <= FILEWRITE_MAX
    modifies fs
    ensures fs.logged == if r == -1 then before else before + {fs.sb.IBlock(i)}
    ensures forall L: Layout, s0: G.State, steps: seq<G.Step>, p: nat, bn: Word, data: Block ::
              G.Init(L, s0) && G.Run(L, s0, steps) && L.size > LOGSIZE && Ongoing(G.After(L, s0, steps), p, before)
              && bn < |G.After(L, s0, steps).disk| && !L.InLog(bn) ==>
                G.Enabled(L, G.After(L, s0, steps), G.LogWrite(p, bn, data))
  {
    r, before := fs.WriteTransaction(i, off, src);
    forall L: Layout, s0: G.State, steps: seq<G.Step>, p: nat, bn: Word, data: Block |
      G.Init(L, s0) && G.Run(L, s0, steps) && L.size > LOGSIZE && Ongoing(G.After(L, s0, steps), p, before)
      && bn < |G.After(L, s0, steps).disk| && !L.InLog(bn)
      ensures G.Enabled(L, G.After(L, s0, steps), G.LogWrite(p, bn, data))
    {
      G.FewBlocksFit(L, s0, steps, p, before, bn, data);
    }
  }

  /** Process p is inside an operation whose log_write()s so far went to these blocks only, and has the buffer of
      the block it is about to log. */
  predicate Ongoing(s: G.State, p: nat, blocks: set<nat>)
  {
    G.InOp(s, p) && s.held >= 1 && G.OpBlocks(s.cur, s.ops[p].id) <= blocks
  }
}
