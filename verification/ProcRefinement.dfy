/** The methods of the process table against the exit/wait protocol: each call of fork(), exit() and wait()
    that finds the locks free is a run of the protocol's steps, so what holds in every run of the protocol
    holds of the table, and of the memory that wait() frees. */
module ProcRefinement {
  import opened Common
  import opened ExitWait
  import M = ProcMemory
  import P = Process
  import AddressSpace
  import Sv39

  // ---- runs grow at the end ----

  lemma {:induction false} RunMore(s: System, init: nat, steps: seq<Step>, t: Step)
    requires Run(s, init, steps) && Enabled(After(s, init, steps), init, t)
    ensures Run(s, init, steps + [t]) && After(s, init, steps + [t]) == Take(After(s, init, steps), init, t)
    decreases |steps|
  {
    hide Enabled, Take;
    if steps == [] {
      assert [t][1..] == [];
    } else {
      RunMore(Take(s, init, steps[0]), init, steps[1..], t);
      assert (steps + [t])[1..] == steps[1..] + [t];
    }
  }

  lemma Then(s0: System, init: nat, s: System, t: Step) returns (e: System)
    requires Leads(s0, init, s) && Enabled(s, init, t)
    ensures e == Take(s, init, t) && Leads(s0, init, e)
  {
    hide Enabled, Take;
    e := Take(s, init, t);
    var steps :| Run(s0, init, steps) && After(s0, init, steps) == s;
    RunMore(s0, init, steps, t);
  }

  lemma ReachedInv(s0: System, init: nat, s: System)
    requires Start(s0, init) && Leads(s0, init, s)
    ensures Inv(s, init) && PidInv(s)
  {
    hide Inv, PidInv, Run, After, Start;
    var steps :| Run(s0, init, steps) && After(s0, init, steps) == s;
    ReachableInv(s0, init, steps);
  }

  // ---- the relation ----

  /** A slot of the table and a process of the protocol. Only the protocol says whether a live process runs,
      can run or sleeps. */
  predicate Same(a: M.Proc, b: Proc)
  {
    && a.pid == b.pid && a.parent == b.parent && a.state.UNUSED? == b.state.UNUSED?
    && a.state.USED? == b.state.USED? && a.state.ZOMBIE? == b.state.ZOMBIE?
  }

  predicate Agree(ps: seq<M.Proc>, nextpid: nat, s: System)
  {
    |ps| == |s.procs| && nextpid == s.nextpid && forall k :: 0 <= k < |ps| ==> Same(ps[k], s.procs[k])
  }

  /** The table is as a run of the protocol from the start s0 has made it. */
  ghost predicate Matches(pt: P.ProcTable, s0: System, init: nat, s: System)
    reads pt
  {
    Start(s0, init) && Leads(s0, init, s) && Agree(pt.procs, pt.nextpid, s)
  }

  /** Process p runs, in user mode or just out of a sleep in wait(), and every lock is free. */
  predicate Calls(s: System, p: nat)
  {
    && p < |s.procs| && s.wait.None? && s.procs[p].state.RUNNING? && (s.procs[p].pc.User? || s.procs[p].pc.WaitAgain?)
    && forall k :: 0 <= k < |s.procs| ==> !s.procs[k].locked
  }

  /** The rest of the protocol, scheduling, sleeping and killing, does not concern the table. */
  lemma SchedulingAgrees(ps: seq<M.Proc>, nextpid: nat, s: System, init: nat, t: Step)
    requires Agree(ps, nextpid, s) && Inv(s, init) && Enabled(s, init, t)
    requires t.SchedRelease? || t.Schedule? || t.Resume? || t.Yield? || t.SleepElsewhere? || t.WakeElsewhere? || t.Kill?
    ensures Agree(ps, nextpid, Take(s, init, t))
  {
    hide HolderOk, SleepOk, ParentOk, ForkOk;
    assert ProcOk(s, init, t.p);
    assert Same(ps[t.p], s.procs[t.p]);
  }

  // ---- fork() ----

  /** A child of p in slot np. */
  function Forked(s: System, p: nat, np: nat): System
    requires np < |s.procs|
  {
    Set(s, np, BLANK.(state := RUNNABLE, pid := s.nextpid, parent := Some(p))).(nextpid := s.nextpid + 1)
  }

  lemma ForkRun(s0: System, init: nat, s: System, p: nat, np: nat)
    requires Leads(s0, init, s) && Calls(s, p) && s.procs[p].pc.User? && np < |s.procs| && s.procs[np].state.UNUSED?
    ensures Leads(s0, init, Forked(s, p, np))
  {
    hide Leads;
    var a := Then(s0, init, s, Fork(p, np));
    var b := Then(s0, init, a, SetParent(p));
    var c := Then(s0, init, b, Launch(p));
    assert c.procs == Forked(s, p, np).procs;
  }

  method ForkCall(pt: P.ProcTable, ghost s0: System, ghost init: nat, ghost s: System, p: nat)
    returns (r: int, ghost e: System)
    requires pt.Valid() && Matches(pt, s0, init, s) && Calls(s, p) && s.procs[p].pc.User?
    modifies pt, pt.m
    ensures pt.Valid() && Matches(pt, s0, init, e) && Calls(e, p) && e.exited == s.exited && e.reaped == s.reaped
    ensures r != -1 ==> exists np :: 0 <= np < |s.procs| && s.procs[np].state.UNUSED? && e == Forked(s, p, np)
    ensures r == -1 ==> e.procs == s.procs
  {
    hide Leads, Start, M.Inv, M.Pids;
    LiveHasMemory(pt, s, p);
    ghost var ps := pt.procs;
    ghost var np;
    r, np := pt.Fork(p);
    e := s;
    if r != -1 {
      assert Same(ps[np], s.procs[np]);
      ForkRun(s0, init, s, p, np);
      e := Forked(s, p, np);
    } else if !M.NoSlot(ps) {
      ghost var k :| 0 <= k < |ps| && ps[k].state.UNUSED?;
      assert Same(ps[k], s.procs[k]);
      e := Then(s0, init, s, ForkFail(p, k));
    }
  }

  // ---- exit() ----

  /** State e while p, which called exit() in s, is in its loops. */
  predicate Turning(s: System, e: System, init: nat, p: nat)
  {
    && p < |s.procs| == |e.procs| && e == s.(procs := e.procs, wait := Some(p))
    && var pc, n := e.procs[p].pc, |s.procs|;
       && ((pc.Reparent? && pc.i <= n) || (pc.WakeInit? && pc.i < n && pc.j <= n) || (pc.WakeParent? && pc.j <= n))
       && forall k :: 0 <= k < n ==>
            Turned(s.procs[k], e.procs[k], if k < Seen(pc, n) && s.procs[k].parent == Some(p) then Some(init)
                                           else s.procs[k].parent)
  }

  predicate Turned(a: Proc, b: Proc, parent: Option<nat>)
  {
    && b.pid == a.pid && b.parent == parent && b.locked == a.locked && b.state.UNUSED? == a.state.UNUSED?
    && b.state.USED? == a.state.USED? && b.state.ZOMBIE? == a.state.ZOMBIE?
  }

  /** One turn at one slot. */
  lemma TurnSlot(e: System, init: nat, p: nat, k: nat)
    requires p < |e.procs| && k < |e.procs|
    ensures var f, pc := ExitTurnOf(e, init, p), e.procs[p].pc;
            && f == e.(procs := f.procs) && |f.procs| == |e.procs|
            && Turned(e.procs[k], f.procs[k],
                      if pc.Reparent? && k == pc.i && e.procs[k].parent == Some(p) then Some(init)
                      else e.procs[k].parent)
  {
  }

  lemma Turn(s: System, e: System, init: nat, p: nat)
    requires Turning(s, e, init, p) && p != init && !(e.procs[p].pc.WakeParent? && e.procs[p].pc.j >= |e.procs|)
    ensures Turning(s, ExitTurnOf(e, init, p), init, p)
  {
    hide ExitTurnOf;
    var f, n := ExitTurnOf(e, init, p), |s.procs|;
    TurnGoesOn(e, init, p);
    TurnSlot(e, init, p, p);
    forall k | 0 <= k < n
      ensures Turned(s.procs[k], f.procs[k],
                     if k < Seen(f.procs[p].pc, n) && s.procs[k].parent == Some(p) then Some(init)
                     else s.procs[k].parent)
    {
      TurnSlot(e, init, p, k);
    }
  }

  lemma ExitLoops(s0: System, init: nat, s: System, p: nat) returns (e: System)
    requires Leads(s0, init, s) && Calls(s, p) && s.procs[p].pc.User? && p != init
    ensures Leads(s0, init, e) && Turning(s, e, init, p) && e.procs[p].pc == WakeParent(|s.procs|)
  {
    hide Leads, Turned, ExitTurnOf;
    e := Then(s0, init, s, Exit(p));
    assert Turning(s, e, init, p) by { Began(s, init, p); }
    while !(e.procs[p].pc.WakeParent? && e.procs[p].pc.j >= |e.procs|)
      invariant Leads(s0, init, e) && Turning(s, e, init, p)
      decreases if e.procs[p].pc.WakeParent? then 0 else |s.procs| + 1 - Seen(e.procs[p].pc, |s.procs|),
                if e.procs[p].pc.Reparent? then 0 else |s.procs| + 1 - e.procs[p].pc.j
    {
      Turn(s, e, init, p);
      CanTurn(s, e, init, p);
      TurnGoesOn(e, init, p);
      e := Then(s0, init, e, ExitTurn(p));
    }
  }

  lemma Began(s: System, init: nat, p: nat)
    requires p < |s.procs|
    ensures Turning(s, Set(s, p, s.procs[p].(pc := Reparent(0))).(wait := Some(p)), init, p)
  {
  }

  lemma CanTurn(s: System, e: System, init: nat, p: nat)
    requires Calls(s, p) && Turning(s, e, init, p) && !(e.procs[p].pc.WakeParent? && e.procs[p].pc.j >= |e.procs|)
    ensures Enabled(e, init, ExitTurn(p))
  {
    assert forall k :: 0 <= k < |s.procs| ==> e.procs[k].locked == s.procs[k].locked;
  }

  /** Where the next turn leaves p in its loops. */
  lemma TurnGoesOn(e: System, init: nat, p: nat)
    requires p < |e.procs|
    ensures var pc, next, n := e.procs[p].pc, ExitTurnOf(e, init, p).procs[p].pc, |e.procs|;
            && (pc.Reparent? ==> next == if pc.i >= n then WakeParent(0)
                                         else if e.procs[pc.i].parent == Some(p) then WakeInit(pc.i, 0)
                                         else Reparent(pc.i + 1))
            && (pc.WakeInit? ==> next == if pc.j >= n then Reparent(pc.i + 1) else WakeInit(pc.i, pc.j + 1))
            && (pc.WakeParent? ==> next == WakeParent(pc.j + 1))
  {
  }

  /** What the protocol's exit() does to one process. */
  predicate ExitedSlot(s: System, e: System, init: nat, p: nat, k: nat)
    requires k < |s.procs| == |e.procs|
  {
    && Turned(s.procs[k], e.procs[k].(state := if k == p then s.procs[k].state else e.procs[k].state),
              if s.procs[k].parent == Some(p) then Some(init) else s.procs[k].parent)
    && (k == p ==> e.procs[k].state.ZOMBIE?)
  }

  lemma ExitRun(s0: System, init: nat, s: System, p: nat) returns (e: System)
    requires Leads(s0, init, s) && Calls(s, p) && s.procs[p].pc.User? && p != init
    ensures Leads(s0, init, e) && |e.procs| == |s.procs|
    ensures e == s.(procs := e.procs, exited := s.exited + [s.procs[p].pid])
    ensures forall k :: 0 <= k < |s.procs| ==> ExitedSlot(s, e, init, p, k)
  {
    hide Leads, ExitTurnOf;
    var a := ExitLoops(s0, init, s, p);
    assert Turned(s.procs[p], a.procs[p], a.procs[p].parent);
    var b := Then(s0, init, a, Zombify(p));
    e := Then(s0, init, b, SchedRelease(p));
    forall k | 0 <= k < |s.procs|
      ensures ExitedSlot(s, e, init, p, k)
    {
      assert Turned(s.procs[k], a.procs[k], a.procs[k].parent);
    }
  }

  lemma ExitAgrees(ps: seq<M.Proc>, ps': seq<M.Proc>, nextpid: nat, s: System, e: System, init: nat, p: nat,
                   status: nat)
    requires Agree(ps, nextpid, s) && p < |ps| == |ps'| == |e.procs| && e.nextpid == s.nextpid
    requires forall k :: 0 <= k < |s.procs| ==> ExitedSlot(s, e, init, p, k)
    requires forall k :: 0 <= k < |ps| ==>
               ps'[k] == (if k == p then ps[k].(state := ZOMBIE, xstate := status) else ps[k])
                         .(parent := if ps[k].parent == Some(p) then Some(init) else ps[k].parent)
    ensures Agree(ps', nextpid, e)
  {
    forall k | 0 <= k < |ps|
      ensures Same(ps'[k], e.procs[k])
    {
      assert Same(ps[k], s.procs[k]) && ExitedSlot(s, e, init, p, k);
    }
  }

  method ExitCall(pt: P.ProcTable, ghost s0: System, init: nat, ghost s: System, p: nat, status: nat)
    returns (ghost e: System)
    requires pt.Valid() && Matches(pt, s0, init, s) && Calls(s, p) && s.procs[p].pc.User? && p != init
    modifies pt
    ensures pt.Valid() && Matches(pt, s0, init, e) && e.wait.None?
    ensures p < |pt.procs| && e.exited == s.exited + [pt.procs[p].pid]
    ensures e.reaped == s.reaped && pt.procs[p].pid !in s.exited
  {
    hide Leads, Start, M.Inv, M.Pids, ExitedSlot, PidInv, Inv;
    LiveHasMemory(pt, s, p);
    ghost var ps := pt.procs;
    pt.Exit(p, status, init);
    e := ExitRun(s0, init, s, p);
    ExitAgrees(ps, pt.procs, pt.nextpid, s, e, init, p, status);
    ReachedInv(s0, init, s);
    assert pt.procs[p].pid == s.procs[p].pid;
    NotYetExited(s, p);
  }

  lemma NotYetExited(s: System, p: nat)
    requires PidInv(s) && p < |s.procs| && s.procs[p].state.RUNNING?
    ensures s.procs[p].pid !in s.exited
  {
  }

  // ---- wait() ----

  /** p has seen the slots below i, and no zombie child among them. */
  function Scanning(s: System, p: nat, i: nat, havekids: bool): System
    requires p < |s.procs|
  {
    Set(s, p, s.procs[p].(pc := WaitScan(i, havekids))).(wait := Some(p))
  }

  predicate HasChild(s: System, p: nat, n: nat)
    requires n <= |s.procs|
  {
    exists k :: 0 <= k < n && s.procs[k].parent == Some(p)
  }

  lemma {:induction false} ScanRun(s0: System, init: nat, s: System, p: nat, n: nat)
    requires Leads(s0, init, s) && Calls(s, p) && n <= |s.procs|
    requires forall k :: 0 <= k < n ==> !IsZombieChild(s.procs[k], p)
    ensures Leads(s0, init, Scanning(s, p, n, HasChild(s, p, n)))
  {
    hide Leads;
    if n == 0 {
      var a := Then(s0, init, s, Wait(p));
    } else {
      ScanRun(s0, init, s, p, n - 1);
      var a := Scanning(s, p, n - 1, HasChild(s, p, n - 1));
      var b := Then(s0, init, a, WaitTurn(p));
      assert !IsZombieChild(s.procs[n - 1], p);
      assert HasChild(s, p, n) <==> HasChild(s, p, n - 1) || s.procs[n - 1].parent == Some(p);
      assert b.procs == Scanning(s, p, n, HasChild(s, p, n)).procs;
    }
  }

  /** p is back from wait(). */
  function Returned(s: System, p: nat): System
    requires p < |s.procs|
  {
    Set(s, p, s.procs[p].(pc := User))
  }

  /** p has gone to sleep in wait(). */
  function Slept(s: System, p: nat): System
    requires p < |s.procs|
  {
    Set(s, p, s.procs[p].(state := SLEEPING, chan := OnProc(p), pc := Asleep))
  }

  /** p is back from wait(), and the child in slot q is gone. */
  function ReapedOf(s: System, p: nat, q: nat): System
    requires p < |s.procs| && q < |s.procs|
  {
    Set(Returned(s, p), q, BLANK).(reaped := s.reaped + [s.procs[q].pid])
  }

  lemma ReapRun(s0: System, init: nat, s: System, p: nat, q: nat)
    requires Leads(s0, init, s) && Calls(s, p) && q < |s.procs| && IsZombieChild(s.procs[q], p)
    requires forall k :: 0 <= k < q ==> !IsZombieChild(s.procs[k], p)
    ensures Leads(s0, init, ReapedOf(s, p, q)) && Leads(s0, init, Returned(s, p))
  {
    hide Leads, HasChild;
    ScanRun(s0, init, s, p, q);
    var a := Scanning(s, p, q, HasChild(s, p, q));
    var b := Then(s0, init, a, WaitTurn(p));
    assert b.procs == ReapedOf(s, p, q).procs;
    var c := Then(s0, init, a, WaitFault(p));
    assert c.procs == Returned(s, p).procs;
  }

  lemma SleepRun(s0: System, init: nat, s: System, p: nat)
    requires Calls(s, p) && Leads(s0, init, Scanning(s, p, |s.procs|, true))
    ensures Leads(s0, init, Slept(s, p))
  {
    hide Leads;
    var a := Scanning(s, p, |s.procs|, true);
    var b := Then(s0, init, a, LockSelf(p));
    var c := Then(s0, init, b, ReleaseWait(p));
    var d := Set(s, p, s.procs[p].(locked := true, pc := SleepReleased));
    assert c.procs == d.procs;
    SleepsOn(s0, init, d, p);
    assert Slept(d, p).procs[p := Slept(d, p).procs[p].(locked := false)] == Slept(s, p).procs;
  }

  /** The second half of sleep(), without wait_lock. */
  lemma SleepsOn(s0: System, init: nat, s: System, p: nat)
    requires Leads(s0, init, s) && p < |s.procs| && s.procs[p].pc.SleepReleased? && s.procs[p].locked
    ensures Leads(s0, init, Set(Slept(s, p), p, Slept(s, p).procs[p].(locked := false)))
  {
    hide Leads;
    var a := Then(s0, init, s, GoToSleep(p));
    var b := Then(s0, init, a, SchedRelease(p));
  }

  /** No zombie child: p gives up if it has no child or is killed, and otherwise goes to sleep. */
  lemma EmptyHandedRun(s0: System, init: nat, s: System, p: nat)
    requires Leads(s0, init, s) && Calls(s, p) && forall k :: 0 <= k < |s.procs| ==> !IsZombieChild(s.procs[k], p)
    ensures Leads(s0, init, EmptyHanded(s, p))
  {
    hide Leads, HasChild;
    ScanRun(s0, init, s, p, |s.procs|);
    var a := Scanning(s, p, |s.procs|, HasChild(s, p, |s.procs|));
    if !HasChild(s, p, |s.procs|) || s.procs[p].killed {
      var b := Then(s0, init, a, GiveUp(p));
      assert b.procs == Returned(s, p).procs;
    } else {
      SleepRun(s0, init, s, p);
    }
  }

  function EmptyHanded(s: System, p: nat): System
    requires p < |s.procs|
  {
    if !HasChild(s, p, |s.procs|) || s.procs[p].killed then Returned(s, p) else Slept(s, p)
  }

  lemma SameZombies(ps: seq<M.Proc>, nextpid: nat, s: System, p: nat)
    requires Agree(ps, nextpid, s)
    ensures forall k :: 0 <= k < |ps| ==> (M.ZombieChild(ps, p, k) <==> IsZombieChild(s.procs[k], p))
    ensures HasChild(s, p, |s.procs|) <==> exists k :: 0 <= k < |ps| && ps[k].parent == Some(p)
  {
    assert forall k :: 0 <= k < |ps| ==> Same(ps[k], s.procs[k]);
  }

  lemma ReapedPid(s: System, q: nat)
    requires PidInv(s) && q < |s.procs| && s.procs[q].state.ZOMBIE?
    ensures s.procs[q].pid in s.exited && s.procs[q].pid !in s.reaped
  {
  }

  /** What wait() reaps is a process that has exited and has not been reaped before, and it is the memory of
      that process that becomes free. When it goes to sleep, the protocol's process does. */
  method WaitCall(pt: P.ProcTable, ghost s0: System, ghost init: nat, ghost s: System, p: nat, addr: nat)
    returns (r: M.WaitOutcome, ghost e: System)
    requires pt.Valid() && Matches(pt, s0, init, s) && Calls(s, p)
    modifies pt, pt.m
    ensures pt.Valid() && Matches(pt, s0, init, e) && e.wait.None? && e.exited == s.exited
    ensures r.Reaped? ==>
              && r.child < |s.procs| && r.pid == s.procs[r.child].pid && e == ReapedOf(s, p, r.child)
              && r.pid in s.exited && r.pid !in s.reaped
              && pt.m.use ==
                 AddressSpace.Freed(old(pt.m.use), M.RootOf(old(pt.procs)[r.child], |pt.m.use|), Some(r.child))
    ensures r.BadAddress? ==> e == Returned(s, p)
    ensures r.NoChildren? ==> e == Returned(s, p) && !HasChild(s, p, |s.procs|)
    ensures r.MustSleep? ==> HasChild(s, p, |s.procs|) && e == if s.procs[p].killed then Returned(s, p) else Slept(s, p)
  {
    hide Leads, Start, M.Inv, M.Pids, PidInv, Inv, HasChild, M.ZombieChild, IsZombieChild, M.HoldsPid, M.Stored;
    hide AddressSpace.Others, AddressSpace.Freed, AddressSpace.OthersOfTwo, M.KeptOutside, M.IntSpares;
    LiveHasMemory(pt, s, p);
    ghost var ps := pt.procs;
    SameZombies(ps, pt.nextpid, s, p);
    r := pt.Wait(p, addr);
    if r.Reaped? {
      WaitReaps(s0, init, s, p, r.child, ps, pt.nextpid);
      e := ReapedOf(s, p, r.child);
    } else if r.BadAddress? {
      WaitFaults(s0, init, s, p);
      ReturnAgrees(ps, pt.nextpid, s, p);
      e := Returned(s, p);
    } else {
      EmptyHandedRun(s0, init, s, p);
      ReturnAgrees(ps, pt.nextpid, s, p);
      e := EmptyHanded(s, p);
    }
  }

  lemma LiveHasMemory(pt: P.ProcTable, s: System, p: nat)
    requires pt.Valid() && Agree(pt.procs, pt.nextpid, s) && Calls(s, p)
    ensures pt.procs[p].pagetable.Some? && Same(pt.procs[p], s.procs[p])
  {
    assert Same(pt.procs[p], s.procs[p]);
    M.SlotAt(pt.m.ts, pt.m.use, pt.procs, pt.owner, pt.trampoline, p);
  }

  lemma ReturnAgrees(ps: seq<M.Proc>, nextpid: nat, s: System, p: nat)
    requires Agree(ps, nextpid, s) && Calls(s, p)
    ensures Agree(ps, nextpid, Returned(s, p)) && Agree(ps, nextpid, Slept(s, p))
  {
    assert Same(ps[p], s.procs[p]);
  }

  lemma WaitFaults(s0: System, init: nat, s: System, p: nat)
    requires Leads(s0, init, s) && Calls(s, p) && exists k :: 0 <= k < |s.procs| && IsZombieChild(s.procs[k], p)
    ensures Leads(s0, init, Returned(s, p))
  {
    hide Leads, IsZombieChild;
    var q := 0;
    while !IsZombieChild(s.procs[q], p)
      invariant q < |s.procs| && forall k :: 0 <= k < q ==> !IsZombieChild(s.procs[k], p)
      decreases |s.procs| - q
    {
      q := q + 1;
    }
    ReapRun(s0, init, s, p, q);
  }

  lemma WaitReaps(s0: System, init: nat, s: System, p: nat, q: nat, ps: seq<M.Proc>, nextpid: nat)
    requires Start(s0, init) && Leads(s0, init, s) && Calls(s, p) && Agree(ps, nextpid, s)
    requires q < |s.procs| && IsZombieChild(s.procs[q], p) && forall k :: 0 <= k < q ==> !IsZombieChild(s.procs[k], p)
    ensures Leads(s0, init, ReapedOf(s, p, q)) && Agree(ps[q := M.BLANK], nextpid, ReapedOf(s, p, q))
    ensures s.procs[q].pid == ps[q].pid && s.procs[q].pid in s.exited && s.procs[q].pid !in s.reaped
  {
    hide Leads, Start, PidInv, Inv;
    assert Same(ps[q], s.procs[q]) && Same(ps[p], s.procs[p]);
    ReapRun(s0, init, s, p, q);
    ReachedInv(s0, init, s);
    ReapedPid(s, q);
  }

  // ---- the start ----

  /** userinit() on a fresh table is where the protocol's runs start. */
  method Boot(pt: P.ProcTable, code: seq<Byte>) returns (init: nat, ghost s0: System)
    requires pt.Valid() && |code| < Sv39.PGSIZE && |pt.m.free| >= 8
    requires pt.procs == seq(M.NPROC, (i: nat) => M.BLANK) && pt.nextpid == 1
    modifies pt, pt.m
    ensures pt.Valid() && Matches(pt, s0, init, s0)
  {
    hide Leads, M.Inv, M.Pids;
    assert pt.procs[0].state.UNUSED?;
    init := pt.UserInit(code);
    s0 := System(seq(M.NPROC, (k: nat) => if k == init then BLANK.(state := RUNNABLE, pid := 1) else BLANK),
                 None, 2, [], []);
    Here(s0, init);
  }

  lemma Here(s: System, init: nat)
    ensures Leads(s, init, s)
  {
    assert Run(s, init, []) && After(s, init, []) == s;
  }
}
