/** Group commit: begin_op(), log_write(), end_op() and commit() of kernel/log.c as atomic
    steps of concurrent processes, over the disk of module RedoLog. */
module GroupCommit {
  import opened Common
  import opened Blocks
  import opened RedoLog
  import opened Log
  import BufferCache

  /** A process outside begin_op()/end_op(), or inside, having added so many blocks to the log. */
  datatype Op = Idle | Active(id: nat, added: nat)

  /** One log_write() by operation id. */
  datatype Entry = Entry(id: nat, w: Write)

  /** disk and the log struct of the kernel; ops has one slot per process. held counts the buffers in use that do
      not belong to the transaction, of operations and of readers that need none. The rest is history:
      base is the disk when the current transaction began, cur its log_write()s so far,
      durable those of earlier transactions, first the disk at boot. */
  datatype State = State(
    disk: Image, view: Image, lh: seq<Word>, outstanding: nat, committing: bool, written: nat,
    ops: seq<Op>, nextId: nat, held: nat, base: Image, cur: seq<Entry>, durable: seq<Entry>, first: Image)

  datatype Step =
    | BeginOp(p: nat)
    | LogWrite(p: nat, bn: Word, data: Block)
    | EndOp(p: nat)
    | Hold
    | Release
    | CommitWrite
    | CommitDone

  function Writes(es: seq<Entry>): (ws: seq<Write>)
    ensures |ws| == |es|
  {
    seq(|es|, i requires 0 <= i < |es| => es[i].w)
  }

  function Replay(d: Image, es: seq<Entry>): (r: Image)
    ensures |r| == |d|
  {
    Apply(d, Writes(es))
  }

  /** commit()'s block writes for the current transaction. */
  function Plan(L: Layout, s: State): seq<Write>
    requires CanCommit(L, s.base, s.view, s.lh)
  {
    CommitWrites(L, s.base, s.view, s.lh)
  }

  // ---- steps ----

  predicate InOp(s: State, p: nat) { p < |s.ops| && s.ops[p].Active? }

  /** What callers of log_write() owe: a home block whose buffer they have, and at most MAXOPBLOCKS new ones per
      operation. */
  predicate Disciplined(L: Layout, s: State, p: nat, bn: Word)
  {
    InOp(s, p) && bn < |s.disk| && !L.InLog(bn) && (bn in s.lh || (s.held >= 1 && s.ops[p].added < MAXOPBLOCKS))
  }

  /** The test with which log_write() panics "too big a transaction". */
  predicate TooBig(L: Layout, s: State)
  {
    |s.lh| >= LOGSIZE || |s.lh| >= L.size - 1
  }

  /** The buffers pinned for the transaction. commit() drops the pins while it installs, after the copies and the
      header. */
  function Pinned(s: State): nat
  {
    if !s.committing || s.written <= |s.lh| + 1 then |s.lh|
    else if s.written < 2 * |s.lh| + 1 then 2 * |s.lh| + 1 - s.written
    else 0
  }

  /** bread() of a block that is not cached finds a buffer; otherwise it panics "bget: no buffers". Nobody but the
      log uses the buffer of a log block, so this goes for commit()'s log blocks, cached or not. */
  predicate BufferFree(s: State)
  {
    Pinned(s) + s.held < BufferCache.NBUF
  }

  predicate Enabled(L: Layout, s: State, step: Step)
  {
    match step
    case BeginOp(p) =>
      p < |s.ops| && s.ops[p].Idle? && !s.committing
      && |s.lh| + (s.outstanding + 1) * MAXOPBLOCKS <= LOGSIZE
    case LogWrite(p, bn, data) =>
      Disciplined(L, s, p, bn) && !TooBig(L, s) && s.outstanding >= 1
    case EndOp(p) => InOp(s, p) && s.outstanding >= 1 && !s.committing
    case Hold => BufferFree(s)
    case Release => s.held > 0
    case CommitWrite =>
      s.committing && BufferFree(s) && CanCommit(L, s.base, s.view, s.lh) && s.written < |Plan(L, s)|
    case CommitDone => s.committing && CanCommit(L, s.base, s.view, s.lh) && s.written == |Plan(L, s)|
  }

  function Take(L: Layout, s: State, step: Step): State
    requires Enabled(L, s, step)
  {
    match step
    case BeginOp(p) =>
      s.(ops := s.ops[p := Active(s.nextId, 0)], nextId := s.nextId + 1, outstanding := s.outstanding + 1)
    case LogWrite(p, bn, data) =>
      var added := s.ops[p].added + if bn in s.lh then 0 else 1;
      s.(lh := Absorb(s.lh, bn), held := if bn in s.lh then s.held else s.held - 1,
         view := Do(s.view, Write(bn, data)),
         ops := s.ops[p := s.ops[p].(added := added)],
         cur := s.cur + [Entry(s.ops[p].id, Write(bn, data))])
    case EndOp(p) =>
      s.(ops := s.ops[p := Idle], outstanding := s.outstanding - 1,
         committing := s.outstanding == 1, written := 0)
    case Hold => s.(held := s.held + 1)
    case Release => s.(held := s.held - 1)
    case CommitWrite =>
      s.(disk := Do(s.disk, Plan(L, s)[s.written]), written := s.written + 1)
    case CommitDone =>
      s.(committing := false, lh := [], base := s.disk, durable := s.durable + s.cur, cur := [])
  }

  predicate Init(L: Layout, s: State)
  {
    && Clean(L, s.disk) && |s.disk| <= 0x1_0000_0000
    && s.view == s.base == s.first == s.disk
    && s.lh == [] && s.outstanding == 0 && !s.committing && s.held == 0 && s.cur == [] && s.durable == []
    && forall p :: 0 <= p < |s.ops| ==> s.ops[p].Idle?
  }

  predicate Run(L: Layout, s: State, steps: seq<Step>)
    decreases |steps|
  {
    steps == [] || (Enabled(L, s, steps[0]) && Run(L, Take(L, s, steps[0]), steps[1..]))
  }

  function After(L: Layout, s: State, steps: seq<Step>): State
    requires Run(L, s, steps)
    decreases |steps|
  {
    if steps == [] then s else After(L, Take(L, s, steps[0]), steps[1..])
  }

  // ---- counting operations and log space ----

  function Count(ops: seq<Op>): nat
  {
    if ops == [] then 0 else Count(ops[..|ops| - 1]) + if ops[|ops| - 1].Active? then 1 else 0
  }

  /** Log slots still reserved for the operations under way. */
  function Unused(ops: seq<Op>): nat
  {
    if ops == [] then 0
    else
      var o := ops[|ops| - 1];
      Unused(ops[..|ops| - 1]) + if o.Active? && o.added < MAXOPBLOCKS then MAXOPBLOCKS - o.added else 0
  }

  function Weight(o: Op): nat { if o.Active? then 1 else 0 }

  function Reserve(o: Op): nat { if o.Active? && o.added < MAXOPBLOCKS then MAXOPBLOCKS - o.added else 0 }

  lemma {:induction false} CountUpdate(ops: seq<Op>, p: nat, o: Op)
    requires p < |ops|
    ensures Count(ops[p := o]) == Count(ops) - Weight(ops[p]) + Weight(o)
    ensures Unused(ops[p := o]) == Unused(ops) - Reserve(ops[p]) + Reserve(o)
  {
    var n := |ops| - 1;
    var ops' := ops[p := o];
    if p < n {
      assert ops'[..n] == ops[..n][p := o];
      CountUpdate(ops[..n], p, o);
    } else {
      assert ops'[..n] == ops[..n];
    }
  }

  lemma {:induction false} CountBounds(ops: seq<Op>, p: nat)
    requires p < |ops|
    ensures Weight(ops[p]) <= Count(ops) && Reserve(ops[p]) <= Unused(ops) <= MAXOPBLOCKS * Count(ops)
  {
    UnusedBound(ops);
    var n := |ops| - 1;
    if p < n {
      CountBounds(ops[..n], p);
    }
  }

  lemma {:induction false} UnusedBound(ops: seq<Op>)
    ensures Unused(ops) <= MAXOPBLOCKS * Count(ops)
  {
    if ops != [] {
      UnusedBound(ops[..|ops| - 1]);
    }
  }

  lemma {:induction false} NobodyActive(ops: seq<Op>)
    requires Count(ops) == 0
    ensures forall p :: 0 <= p < |ops| ==> ops[p].Idle?
  {
    if ops != [] {
      NobodyActive(ops[..|ops| - 1]);
    }
  }

  lemma {:induction false} AllIdle(ops: seq<Op>)
    requires forall p :: 0 <= p < |ops| ==> ops[p].Idle?
    ensures Count(ops) == 0 && Unused(ops) == 0
  {
    if ops != [] {
      AllIdle(ops[..|ops| - 1]);
    }
  }

  // ---- invariants ----

  predicate CountsOk(s: State)
  {
    && s.outstanding == Count(s.ops) && (s.committing ==> s.outstanding == 0)
    && |s.lh| + Unused(s.ops) <= LOGSIZE && Pinned(s) + s.held <= BufferCache.NBUF
    && forall p :: 0 <= p < |s.ops| && s.ops[p].Active? ==> s.ops[p].added <= MAXOPBLOCKS
  }

  predicate Touches(es: seq<Entry>, bn: nat)
  {
    exists i :: 0 <= i < |es| && es[i].w.bn == bn
  }

  /** The disk is where commit() has got to, the log names the blocks of the current transaction,
      and clients see that transaction's writes on top of the durable ones. */
  predicate DataOk(L: Layout, s: State)
  {
    && |s.disk| == |s.first| <= 0x1_0000_0000
    && CanCommit(L, s.base, s.view, s.lh)
    && (if s.committing then s.written <= |Plan(L, s)| && s.disk == Apply(s.base, Plan(L, s)[..s.written])
        else s.disk == s.base)
    && SameHome(L, s.view, Replay(s.base, s.cur))
    && SameHome(L, s.base, Replay(s.first, s.durable))
    && (forall bn: Word :: bn in s.lh <==> Touches(s.cur, bn))
    && (forall i :: 0 <= i < |s.cur| ==> s.cur[i].w.bn < |s.disk|)
  }

  /** No operation has writes on both sides of a commit, and none that is still running has any
      in a finished transaction. */
  predicate IdsOk(s: State)
  {
    && (forall p :: 0 <= p < |s.ops| && s.ops[p].Active? ==> s.ops[p].id < s.nextId)
    && (forall i :: 0 <= i < |s.cur| ==> s.cur[i].id < s.nextId)
    && (forall i :: 0 <= i < |s.durable| ==> s.durable[i].id < s.nextId)
    && (forall i, j :: 0 <= i < |s.durable| && 0 <= j < |s.cur| ==> s.durable[i].id != s.cur[j].id)
    && (forall i, p :: 0 <= i < |s.durable| && 0 <= p < |s.ops| && s.ops[p].Active? ==>
          s.durable[i].id != s.ops[p].id)
  }

  predicate Inv(L: Layout, s: State)
  {
    CountsOk(s) && DataOk(L, s) && IdsOk(s)
  }

  lemma InitInv(L: Layout, s: State)
    requires Init(L, s)
    ensures Inv(L, s)
  {
    AllIdle(s.ops);
  }

  lemma StepCounts(L: Layout, s: State, step: Step)
    requires CountsOk(s) && Enabled(L, s, step)
    ensures CountsOk(Take(L, s, step))
  {
    hide CanCommit, CommitWrites;
    match step
    case BeginOp(p) =>
      CountUpdate(s.ops, p, Active(s.nextId, 0));
      UnusedBound(s.ops);
    case LogWrite(p, bn, data) =>
      var added := s.ops[p].added + if bn in s.lh then 0 else 1;
      CountUpdate(s.ops, p, s.ops[p].(added := added));
    case EndOp(p) =>
      CountUpdate(s.ops, p, Idle);
      assert |Take(L, s, step).lh| == |s.lh|;
    case _ =>
  }

  lemma StepIds(L: Layout, s: State, step: Step)
    requires CountsOk(s) && IdsOk(s) && Enabled(L, s, step)
    ensures IdsOk(Take(L, s, step))
  {
    hide CanCommit, CommitWrites;
    if step.CommitDone? {
      NobodyActive(s.ops);
    }
  }

  lemma ReplaySnoc(d: Image, es: seq<Entry>, e: Entry)
    ensures Replay(d, es + [e]) == Do(Replay(d, es), e.w)
  {
    var ws := Writes(es + [e]);
    assert ws[..|es|] == Writes(es);
  }

  lemma ReplayConcat(d: Image, a: seq<Entry>, b: seq<Entry>)
    ensures Replay(d, a + b) == Replay(Replay(d, a), b)
  {
    assert Writes(a + b) == Writes(a) + Writes(b);
    ApplyConcat(d, Writes(a), Writes(b));
  }

  lemma {:induction false} ApplyRespectsHome(L: Layout, d: Image, e: Image, ws: seq<Write>)
    requires SameHome(L, d, e)
    ensures SameHome(L, Apply(d, ws), Apply(e, ws))
  {
    if ws != [] {
      ApplyRespectsHome(L, d, e, ws[..|ws| - 1]);
    }
  }

  lemma StepLogWrite(L: Layout, s: State, p: nat, bn: Word, data: Block)
    requires CountsOk(s) && DataOk(L, s) && Enabled(L, s, LogWrite(p, bn, data))
    ensures DataOk(L, Take(L, s, LogWrite(p, bn, data)))
  {
    hide HeaderN, CommitWrites, Apply;
    CountBounds(s.ops, p);
    var e := Entry(s.ops[p].id, Write(bn, data));
    ReplaySnoc(s.base, s.cur, e);
    var t := Take(L, s, LogWrite(p, bn, data));
    forall b: Word
      ensures b in t.lh <==> Touches(t.cur, b)
    {
      if Touches(s.cur, b) {
        var i :| 0 <= i < |s.cur| && s.cur[i].w.bn == b;
        assert t.cur[i] == s.cur[i];
      }
      assert t.cur[|s.cur|] == e;
    }
  }

  lemma StepCommitDone(L: Layout, s: State)
    requires DataOk(L, s) && Enabled(L, s, CommitDone)
    ensures DataOk(L, Take(L, s, CommitDone))
  {
    hide HeaderN, CommitWrites, Apply, Overlay;
    var ws := Plan(L, s);
    assert ws[..s.written] == ws;
    CommitFinishes(L, s.base, s.view, s.lh);
    OverlayIsReplay(L, s);
    ReplayConcat(s.first, s.durable, s.cur);
    ReplayRespectsHome(L, s.base, Replay(s.first, s.durable), s.cur);
    assert Writes([]) == [];
    ReplayNothing(s.disk);
  }

  lemma ReplayNothing(d: Image)
    ensures Replay(d, []) == d
  {
  }

  lemma ReplayRespectsHome(L: Layout, d: Image, e: Image, es: seq<Entry>)
    requires SameHome(L, d, e)
    ensures SameHome(L, Replay(d, es), Replay(e, es))
  {
    ApplyRespectsHome(L, d, e, Writes(es));
  }

  lemma OverlayIsReplay(L: Layout, s: State)
    requires DataOk(L, s)
    ensures SameHome(L, Overlay(s.base, s.view, s.lh), Replay(s.base, s.cur))
  {
    hide HeaderN, CommitWrites, Apply;
    var o, r := Overlay(s.base, s.view, s.lh), Replay(s.base, s.cur);
    forall bn | 0 <= bn < |o| && !L.InLog(bn)
      ensures o[bn] == r[bn]
    {
      if bn !in s.lh {
        var w: Word := bn;
        assert !Touches(s.cur, w);
        ApplyMiss(s.base, Writes(s.cur), bn);
      }
    }
  }

  lemma StepInv(L: Layout, s: State, step: Step)
    requires Inv(L, s) && Enabled(L, s, step)
    ensures Inv(L, Take(L, s, step))
  {
    hide CountsOk, IdsOk, CommitWrites, SameHome, Replay, Overlay;
    StepCounts(L, s, step);
    StepIds(L, s, step);
    match step
    case BeginOp(p) =>
    case LogWrite(p, bn, data) => StepLogWrite(L, s, p, bn, data);
    case EndOp(p) =>
    case Hold =>
    case Release =>
    case CommitWrite => ApplyStep(s.base, Plan(L, s), s.written);
    case CommitDone => StepCommitDone(L, s);
  }

  /** Every interleaving keeps the invariant. */
  lemma {:induction false} RunInv(L: Layout, s: State, steps: seq<Step>)
    requires Inv(L, s) && Run(L, s, steps)
    ensures Inv(L, After(L, s, steps))
    decreases |steps|
  {
    if steps != [] {
      StepInv(L, s, steps[0]);
      RunInv(L, Take(L, s, steps[0]), steps[1..]);
    }
  }

  lemma ReachableInv(L: Layout, s: State, steps: seq<Step>)
    requires Init(L, s) && Run(L, s, steps)
    ensures Inv(L, After(L, s, steps))
  {
    hide DataOk, CountsOk, IdsOk;
    InitInv(L, s);
    RunInv(L, s, steps);
  }

  // ---- what every run guarantees ----

  /** While commit() runs nobody is inside an operation, so end_op()'s panic cannot happen; and commit() has a
      next step, unless the transaction and others have taken all buffers. */
  lemma CommitAlone(L: Layout, s0: State, steps: seq<Step>, p: nat)
    requires Init(L, s0) && Run(L, s0, steps)
    ensures var s := After(L, s0, steps);
            && (InOp(s, p) ==> !s.committing && s.outstanding >= 1)
            && CanCommit(L, s.base, s.view, s.lh)
            && (Stuck(L, s) <==> s.committing && s.written < |Plan(L, s)| && !BufferFree(s))
            && |s.lh| + Unused(s.ops) <= LOGSIZE
  {
    hide CanCommit, CommitWrites, Replay, SameHome;
    ReachableInv(L, s0, steps);
    var s := After(L, s0, steps);
    if InOp(s, p) {
      CountBounds(s.ops, p);
    }
  }

  /** With more log blocks than LOGSIZE, an operation that has added fewer than MAXOPBLOCKS
      blocks never meets the "too big a transaction" panic. */
  lemma NeverTooBig(L: Layout, s0: State, steps: seq<Step>, p: nat)
    requires Init(L, s0) && Run(L, s0, steps) && L.size > LOGSIZE
    ensures var s := After(L, s0, steps);
            InOp(s, p) && s.ops[p].added < MAXOPBLOCKS ==> !TooBig(L, s)
  {
    hide DataOk, IdsOk;
    ReachableInv(L, s0, steps);
    var s := After(L, s0, steps);
    if InOp(s, p) {
      CountBounds(s.ops, p);
    }
  }

  lemma {:induction false} RunSnoc(L: Layout, s: State, steps: seq<Step>, last: Step)
    requires Run(L, s, steps) && Enabled(L, After(L, s, steps), last)
    ensures Run(L, s, steps + [last])
    ensures After(L, s, steps + [last]) == Take(L, After(L, s, steps), last)
    decreases |steps|
  {
    var all := steps + [last];
    if steps == [] {
      assert all[1..] == [];
    } else {
      assert all[1..] == steps[1..] + [last];
      RunSnoc(L, Take(L, s, steps[0]), steps[1..], last);
    }
  }

  /** Three operations filling the log, ten blocks each: the state after k log_write()s. */
  predicate Filled(L: Layout, s: State, hs: seq<Word>, k: nat)
    requires k <= |hs|
  {
    && s.lh == hs[..k] && s.outstanding == 3 && !s.committing && |s.ops| >= 3 && s.held == 0
    && (k > 0 && s.ops[0].Active? ==> hs[0] as nat in OpBlocks(s.cur, s.ops[0].id))
    && forall p :: 0 <= p < 3 ==>
         s.ops[p].Active? && s.ops[p].added == if k < 10 * p then 0 else if k < 10 * p + 10 then k - 10 * p else 10
  }

  predicate HomeBlocks(L: Layout, len: nat, hs: seq<Word>)
  {
    Distinct(hs) && forall i :: 0 <= i < |hs| ==> hs[i] < len && !L.InLog(hs[i])
  }

  lemma ThreeBegin(L: Layout, s: State) returns (steps: seq<Step>)
    requires Init(L, s) && |s.ops| >= 3
    ensures Run(L, s, steps) && Filled(L, After(L, s, steps), [], 0)
    ensures |After(L, s, steps).disk| == |s.disk|
  {
    steps := [BeginOp(0)];
    var s1 := Take(L, s, BeginOp(0));
    assert Run(L, s1, []) && steps[1..] == [];
    RunSnoc(L, s, steps, BeginOp(1));
    steps := steps + [BeginOp(1)];
    RunSnoc(L, s, steps, BeginOp(2));
    steps := steps + [BeginOp(2)];
  }

  lemma {:induction false} Fill(L: Layout, s: State, hs: seq<Word>, k: nat) returns (steps: seq<Step>)
    requires Init(L, s) && |s.ops| >= 3 && HomeBlocks(L, |s.disk|, hs)
    requires k <= |hs| <= LOGSIZE && k + 1 <= L.size
    ensures Run(L, s, steps) && Filled(L, After(L, s, steps), hs, k)
    ensures |After(L, s, steps).disk| == |s.disk|
    decreases k
  {
    if k == 0 {
      steps := ThreeBegin(L, s);
      assert hs[..0] == [];
    } else {
      steps := Fill(L, s, hs, k - 1);
      RunSnoc(L, s, steps, Hold);
      steps := steps + [Hold];
      var t := After(L, s, steps);
      var step := LogWrite((k - 1) / 10, hs[k - 1], ZeroBlock());
      assert hs[k - 1] !in hs[..k - 1];
      assert Enabled(L, t, step);
      assert hs[..k] == hs[..k - 1] + [hs[k - 1]];
      OpBlocksMore(t.cur, Entry(t.ops[(k - 1) / 10].id, Write(hs[k - 1], ZeroBlock())), t.ops[0].id);
      RunSnoc(L, s, steps, step);
      steps := steps + [step];
    }
  }

  /** With at most LOGSIZE log blocks, as mkfs lays the disk out, the panic can happen: some run
      leads to an operation that has added fewer than MAXOPBLOCKS blocks and finds the log full. */
  lemma TooBigHappens(L: Layout, s0: State, hs: seq<Word>)
    requires Init(L, s0) && L.size <= LOGSIZE && |s0.ops| >= 3
    requires HomeBlocks(L, |s0.disk|, hs) && |hs| == LOGSIZE
    ensures exists steps, p: nat :: Run(L, s0, steps) &&
              var s := After(L, s0, steps);
              InOp(s, p) && s.ops[p].added < MAXOPBLOCKS && TooBig(L, s)
  {
    var k := L.size - 1;
    var steps := Fill(L, s0, hs, k);
    var s := After(L, s0, steps);
    assert |hs[..k]| == k;
    assert InOp(s, k / 10) && s.ops[k / 10].added < MAXOPBLOCKS && TooBig(L, s);
  }

  // ---- when commit() has no buffer ----

  /** commit() is under way and cannot take its next step. */
  predicate Stuck(L: Layout, s: State)
  {
    s.committing && !Enabled(L, s, CommitWrite) && !Enabled(L, s, CommitDone)
  }

  /** The largest transaction. */
  function LogRoom(L: Layout): nat
  {
    if L.size > LOGSIZE then LOGSIZE else if L.size > 0 then L.size - 1 else 0
  }

  /** While others use fewer buffers than the largest transaction leaves, commit() can take its next step, in
      every state of every run. */
  lemma CommitMoves(L: Layout, s0: State, steps: seq<Step>)
    requires Init(L, s0) && Run(L, s0, steps) && LogRoom(L) + After(L, s0, steps).held < BufferCache.NBUF
    ensures !Stuck(L, After(L, s0, steps))
  {
    hide CountsOk, IdsOk, CommitWrites, Replay, SameHome, Run, After;
    ReachableInv(L, s0, steps);
  }

  /** If others can use more, some run leads to a commit() that cannot take its first step: the panic "bget: no
      buffers". */
  lemma CommitStuck(L: Layout, s0: State, hs: seq<Word>, h: nat) returns (steps: seq<Step>)
    requires Init(L, s0) && |s0.ops| >= 3 && HomeBlocks(L, |s0.disk|, hs) && |hs| == LOGSIZE
    requires h < BufferCache.NBUF <= LogRoom(L) + h
    ensures Run(L, s0, steps) && After(L, s0, steps).held == h && Stuck(L, After(L, s0, steps))
  {
    hide CanCommit, CommitWrites, ZeroBlock, Run, After;
    var k := BufferCache.NBUF - h;
    steps := Fill(L, s0, hs, k);
    assert |After(L, s0, steps).lh| == k;
    steps := HoldMany(L, s0, steps, h);
    steps := EndThree(L, s0, steps);
    PlanNotEmpty(L, After(L, s0, steps));
  }

  /** So commit() can meet the panic while others use h buffers if and only if the largest transaction leaves them
      no more than that. */
  lemma StuckIff(L: Layout, s0: State, hs: seq<Word>, h: nat)
    requires Init(L, s0) && |s0.ops| >= 3 && HomeBlocks(L, |s0.disk|, hs) && |hs| == LOGSIZE && h < BufferCache.NBUF
    ensures (exists steps :: Run(L, s0, steps) && After(L, s0, steps).held == h && Stuck(L, After(L, s0, steps)))
            <==> LogRoom(L) + h >= BufferCache.NBUF
  {
    hide Run, After, Stuck, Init, LogRoom;
    if LogRoom(L) + h >= BufferCache.NBUF {
      var steps := CommitStuck(L, s0, hs, h);
    } else {
      forall steps | Run(L, s0, steps) && After(L, s0, steps).held == h
        ensures !Stuck(L, After(L, s0, steps))
      {
        CommitMoves(L, s0, steps);
      }
    }
  }

  lemma {:induction false} HoldMany(L: Layout, s0: State, steps: seq<Step>, h: nat) returns (more: seq<Step>)
    requires Run(L, s0, steps)
    requires var s := After(L, s0, steps); s.held == 0 && !s.committing && |s.lh| + h <= BufferCache.NBUF
    ensures Run(L, s0, more) && After(L, s0, more) == After(L, s0, steps).(held := h)
    decreases h
  {
    hide CanCommit, CommitWrites, Run, After;
    more := steps;
    if h > 0 {
      more := HoldMany(L, s0, steps, h - 1);
      RunSnoc(L, s0, more, Hold);
      more := more + [Hold];
    }
  }

  lemma EndThree(L: Layout, s0: State, steps: seq<Step>) returns (more: seq<Step>)
    requires Run(L, s0, steps)
    requires var s := After(L, s0, steps);
             s.outstanding == 3 && !s.committing && |s.ops| >= 3 && forall p :: 0 <= p < 3 ==> s.ops[p].Active?
    ensures Run(L, s0, more)
    ensures var s, t := After(L, s0, steps), After(L, s0, more);
            t.committing && t.written == 0 && t.lh == s.lh && t.held == s.held
  {
    hide CanCommit, CommitWrites;
    RunSnoc(L, s0, steps, EndOp(0));
    more := steps + [EndOp(0)];
    RunSnoc(L, s0, more, EndOp(1));
    more := more + [EndOp(1)];
    RunSnoc(L, s0, more, EndOp(2));
    more := more + [EndOp(2)];
  }

  lemma PlanNotEmpty(L: Layout, s: State)
    requires s.lh != [] && s.written == 0
    ensures !Enabled(L, s, CommitDone)
  {
  }

  /** The budget is not quite enough: an operation that has logged MAXOPBLOCKS blocks may meet the "too big"
      panic by logging one of them again, with any log that can hold so many. */
  lemma RelogTooBig(L: Layout, s0: State, hs: seq<Word>)
    requires Init(L, s0) && L.size > MAXOPBLOCKS && |s0.ops| >= 3
    requires HomeBlocks(L, |s0.disk|, hs) && |hs| == LOGSIZE
    ensures exists steps, p: nat, bn :: Run(L, s0, steps) && RelogPanics(L, After(L, s0, steps), p, bn)
  {
    hide CanCommit, CommitWrites, ZeroBlock, Run, After, OpBlocks;
    var k := LogRoom(L);
    var steps := Fill(L, s0, hs, k);
    var s := After(L, s0, steps);
    assert |s.lh| == k && hs[0] in hs[..k];
    assert RelogPanics(L, s, 0, hs[0]);
  }

  /** Process p's operation has logged MAXOPBLOCKS blocks, bn among them, and log_write() of bn panics. */
  predicate RelogPanics(L: Layout, s: State, p: nat, bn: Word)
  {
    && Disciplined(L, s, p, bn) && s.ops[p].added == MAXOPBLOCKS && bn in OpBlocks(s.cur, s.ops[p].id)
    && TooBig(L, s)
  }

  // ---- operations with few blocks ----

  /** The blocks that operation id has logged in the current transaction. */
  function OpBlocks(cur: seq<Entry>, id: nat): set<nat>
  {
    if cur == [] then {}
    else
      var e := cur[|cur| - 1];
      OpBlocks(cur[..|cur| - 1], id) + if e.id == id then {e.w.bn} else {}
  }

  /** No operation has been charged for more blocks than it logged. */
  predicate AddedOk(s: State)
  {
    forall p :: 0 <= p < |s.ops| && s.ops[p].Active? ==> s.ops[p].added <= |OpBlocks(s.cur, s.ops[p].id)|
  }

  lemma OpBlocksMore(cur: seq<Entry>, e: Entry, id: nat)
    ensures OpBlocks(cur + [e], id) == OpBlocks(cur, id) + if e.id == id then {e.w.bn} else {}
  {
  }

  lemma StepAdded(L: Layout, s: State, step: Step)
    requires Inv(L, s) && AddedOk(s) && Enabled(L, s, step)
    ensures AddedOk(Take(L, s, step))
  {
    hide CanCommit, CommitWrites, Replay, SameHome, OpBlocks;
    match step
    case LogWrite(p, bn, data) =>
      var e := Entry(s.ops[p].id, Write(bn, data));
      forall q | 0 <= q < |s.ops| && s.ops[q].Active?
        ensures Take(L, s, step).ops[q].added <= |OpBlocks(s.cur + [e], s.ops[q].id)|
      {
        OpBlocksMore(s.cur, e, s.ops[q].id);
        SubsetSize(OpBlocks(s.cur, s.ops[q].id), OpBlocks(s.cur + [e], s.ops[q].id));
        if bn !in s.lh {
          assert !Touches(s.cur, bn);
          NewToAll(s.cur, bn, s.ops[q].id);
        }
      }
    case CommitDone => NobodyActive(s.ops);
    case _ =>
  }

  lemma {:induction false} NewToAll(cur: seq<Entry>, bn: nat, id: nat)
    requires !Touches(cur, bn)
    ensures bn !in OpBlocks(cur, id)
  {
    if cur != [] {
      NewToAll(cur[..|cur| - 1], bn, id);
    }
  }

  lemma {:induction false} RunAdded(L: Layout, s: State, steps: seq<Step>)
    requires Inv(L, s) && AddedOk(s) && Run(L, s, steps)
    ensures AddedOk(After(L, s, steps))
    decreases |steps|
  {
    hide Inv, AddedOk;
    if steps != [] {
      StepInv(L, s, steps[0]);
      StepAdded(L, s, steps[0]);
      RunAdded(L, Take(L, s, steps[0]), steps[1..]);
    }
  }

  /** With more than LOGSIZE log blocks, an operation all of whose log_write()s so far went to fewer than
      MAXOPBLOCKS blocks can issue its next one, whatever home block that is for. */
  lemma FewBlocksFit(L: Layout, s0: State, steps: seq<Step>, p: nat, few: set<nat>, bn: Word, data: Block)
    requires Init(L, s0) && Run(L, s0, steps) && L.size > LOGSIZE && |few| < MAXOPBLOCKS
    requires var s := After(L, s0, steps);
             && InOp(s, p) && OpBlocks(s.cur, s.ops[p].id) <= few && bn < |s.disk| && !L.InLog(bn)
             && (bn in s.lh || s.held >= 1)
    ensures Enabled(L, After(L, s0, steps), LogWrite(p, bn, data))
  {
    hide Inv, Run, After, TooBig, OpBlocks;
    var s := After(L, s0, steps);
    InitInv(L, s0);
    RunAdded(L, s0, steps);
    SubsetSize(OpBlocks(s.cur, s.ops[p].id), few);
    NeverTooBig(L, s0, steps, p);
    CommitAlone(L, s0, steps, p);
  }

  // ---- crashes at any moment of any run ----

  /** The log_write()s that a crash in state s does not lose. */
  function Survivors(s: State): seq<Entry>
  {
    if s.committing && s.written > |s.lh| then s.durable + s.cur else s.durable
  }

  /** After a crash in any reachable state, and a recovery interrupted any number of times, the
      home blocks are the replay of the surviving log_write()s, in the order they were issued. */
  lemma CrashAnywhere(L: Layout, s0: State, steps: seq<Step>, ks: seq<nat>)
    requires Init(L, s0) && Run(L, s0, steps)
    ensures var s := After(L, s0, steps);
            && WellFormed(L, s.disk)
            && SameHome(L, Reboot(L, s.disk, ks), Replay(s0.first, Survivors(s)))
  {
    hide CountsOk, IdsOk, HeaderN, HeaderBlocks, CommitWrites, Apply, Reboot, RecoveryWrites, Loggable, Overlay;
    ReachableInv(L, s0, steps);
    FirstStays(L, s0, steps);
    var s := After(L, s0, steps);
    if s.committing {
      CrashInCommit(L, s, ks);
    } else {
      RebootSettles(L, s.disk, ks);
      CleanRebootSame(L, s.disk, ks);
    }
  }

  lemma {:induction false} FirstStays(L: Layout, s: State, steps: seq<Step>)
    requires Run(L, s, steps)
    ensures After(L, s, steps).first == s.first
    decreases |steps|
  {
    if steps != [] {
      FirstStays(L, Take(L, s, steps[0]), steps[1..]);
    }
  }

  lemma CleanRebootSame(L: Layout, d: Image, ks: seq<nat>)
    requires Clean(L, d)
    ensures WellFormed(L, d) && SameHome(L, Reboot(L, d, ks), d)
  {
    hide Reboot, WordAt;
    assert WellFormed(L, d);
    RebootSettles(L, d, ks);
  }

  lemma CrashInCommit(L: Layout, s: State, ks: seq<nat>)
    requires DataOk(L, s) && s.committing
    ensures WellFormed(L, s.disk)
    ensures SameHome(L, Reboot(L, s.disk, ks), Replay(s.first, Survivors(s)))
  {
    hide HeaderN, HeaderBlocks, CommitWrites, Apply, Reboot, RecoveryWrites, Loggable, Overlay, Replay;
    CrashAtomicity(L, s.base, s.view, s.lh, s.written, ks);
    var r := Reboot(L, s.disk, ks);
    if s.written > |s.lh| {
      RecoveredOverlay(L, s.base, s.view, s.lh, r);
      OverlayIsReplay(L, s);
      ReplayConcat(s.first, s.durable, s.cur);
      ReplayRespectsHome(L, s.base, Replay(s.first, s.durable), s.cur);
    }
  }

  lemma RecoveredOverlay(L: Layout, d: Image, view: Image, bs: seq<Word>, r: Image)
    requires |r| == |d| == |view|
    requires forall bn :: 0 <= bn < |d| && !L.InLog(bn) ==> r[bn] == if bn in bs then view[bn] else d[bn]
    ensures SameHome(L, r, Overlay(d, view, bs))
  {
  }

  /** Operations are atomic and only finished ones survive: of the log_write()s that an operation
      has issued, a crash keeps all or none, and none if the operation was still running. */
  lemma OperationsSurviveWhole(L: Layout, s0: State, steps: seq<Step>, id: nat)
    requires Init(L, s0) && Run(L, s0, steps)
    ensures var s := After(L, s0, steps);
            && (|| (forall e :: e in s.durable + s.cur && e.id == id ==> e in Survivors(s))
                || (forall e :: e in Survivors(s) ==> e.id != id))
            && ((exists p :: 0 <= p < |s.ops| && s.ops[p].Active? && s.ops[p].id == id) ==>
                  forall e :: e in Survivors(s) ==> e.id != id)
  {
    hide DataOk;
    ReachableInv(L, s0, steps);
    var s := After(L, s0, steps);
    if s.committing {
      NobodyActive(s.ops);
    }
  }

  /** Clients of the cache see every log_write() issued so far. */
  lemma ViewIsLatest(L: Layout, s0: State, steps: seq<Step>)
    requires Init(L, s0) && Run(L, s0, steps)
    ensures var s := After(L, s0, steps); SameHome(L, s.view, Replay(s0.first, s.durable + s.cur))
  {
    hide CountsOk, IdsOk, CanCommit, CommitWrites, Replay;
    ReachableInv(L, s0, steps);
    FirstStays(L, s0, steps);
    var s := After(L, s0, steps);
    ReplayConcat(s.first, s.durable, s.cur);
    ReplayRespectsHome(L, s.base, Replay(s.first, s.durable), s.cur);
  }
}
