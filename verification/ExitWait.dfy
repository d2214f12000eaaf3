/** The exit/wait protocol of processes (kernel/proc.c: fork, reparent, exit, wait, sleep, wakeup, kill), as
    interleaved steps. What a process does between acquiring and releasing another process's lock is one
    step; wait_lock, and a process's own lock on its way to sleep, are held across steps. */
module ExitWait {
  import opened Common

  datatype Chan = Nowhere | OnProc(p: nat) | Elsewhere(c: nat)

  /** Where a process is in the kernel. */
  datatype Pc =
    | User                              // anywhere without wait_lock
    | ForkMade(np: nat)                 // fork: the child's slot is filled
    | ForkParented(np: nat)             // fork: the child's parent is set
    | Reparent(i: nat)                  // exit: slots below i have been seen
    | WakeInit(i: nat, j: nat)          // exit: slot i went to init; wakeup(initproc) has reached j
    | WakeParent(j: nat)                // exit: wakeup(p->parent) has reached j
    | Dead                              // exit: done
    | WaitScan(i: nat, havekids: bool)  // wait: slots below i have been seen
    | SleepLocked                       // wait: sleep() holds p->lock and still wait_lock
    | SleepReleased                     // wait: sleep() has released wait_lock
    | Asleep                            // wait: in sched()
    | WaitAgain                         // wait: sleep() is about to acquire wait_lock again
    | AsleepElsewhere                   // some other sleep()

  datatype Proc = Proc(state: ProcState, pid: nat, parent: Option<nat>, chan: Chan, locked: bool, killed: bool, pc: Pc)

  const BLANK := Proc(UNUSED, 0, None, Nowhere, false, false, User)

  /** The process table with wait_lock's holder, and the pids that have exited and been reaped so far. */
  datatype System = System(procs: seq<Proc>, wait: Option<nat>, nextpid: nat, exited: seq<nat>, reaped: seq<nat>)

  datatype Step =
    | Fork(p: nat, np: nat) | ForkFail(p: nat, np: nat) | SetParent(p: nat) | Launch(p: nat)
    | Exit(p: nat) | ExitTurn(p: nat) | Zombify(p: nat)
    | Wait(p: nat) | WaitTurn(p: nat) | WaitFault(p: nat) | GiveUp(p: nat)
    | LockSelf(p: nat) | ReleaseWait(p: nat) | GoToSleep(p: nat)
    | SchedRelease(p: nat) | Schedule(p: nat) | Resume(p: nat) | Yield(p: nat)
    | SleepElsewhere(p: nat, c: nat) | WakeElsewhere(p: nat) | Kill(p: nat)

  predicate HoldsWait(pc: Pc)
  {
    pc.Reparent? || pc.WakeInit? || pc.WakeParent? || pc.WaitScan? || pc.SleepLocked?
  }

  /** wakeup(): the effect on one slot. */
  function Woken(pr: Proc, chan: Chan): Proc
  {
    if pr.state.SLEEPING? && pr.chan == chan then pr.(state := RUNNABLE) else pr
  }

  function ParentChan(pr: Proc): Chan { if pr.parent.Some? then OnProc(pr.parent.value) else Nowhere }

  /** The step can be taken: the process is where it takes it, and the locks it needs are free. */
  predicate Enabled(s: System, init: nat, t: Step)
  {
    && t.p < |s.procs|
    && var pr := s.procs[t.p];
       match t
       case Fork(p, np) => pr.state.RUNNING? && !pr.locked && pr.pc.User? && np < |s.procs| && s.procs[np].state.UNUSED?
       case ForkFail(p, np) =>
         pr.state.RUNNING? && !pr.locked && pr.pc.User? && np < |s.procs| && s.procs[np].state.UNUSED?
       case SetParent(p) => pr.state.RUNNING? && !pr.locked && pr.pc.ForkMade? && pr.pc.np < |s.procs| && s.wait.None?
       case Launch(p) => pr.state.RUNNING? && !pr.locked && pr.pc.ForkParented? && pr.pc.np < |s.procs|
           && !s.procs[pr.pc.np].locked
       case Exit(p) => pr.state.RUNNING? && !pr.locked && pr.pc.User? && p != init && s.wait.None?
       case ExitTurn(p) =>
         || pr.pc.Reparent?
         || (pr.pc.WakeInit? && (pr.pc.j < |s.procs| && pr.pc.j != p ==> !s.procs[pr.pc.j].locked))
         || (pr.pc.WakeParent? && pr.pc.j < |s.procs| && (pr.pc.j != p ==> !s.procs[pr.pc.j].locked))
       case Zombify(p) => pr.pc.WakeParent? && pr.pc.j >= |s.procs| && !pr.locked
       case Wait(p) => pr.state.RUNNING? && !pr.locked && (pr.pc.User? || pr.pc.WaitAgain?) && s.wait.None?
       case WaitTurn(p) =>
         && pr.pc.WaitScan? && pr.pc.i < |s.procs| && (s.procs[pr.pc.i].parent == Some(p) ==> !s.procs[pr.pc.i].locked)
       case WaitFault(p) =>
         && pr.pc.WaitScan? && pr.pc.i < |s.procs|
         && s.procs[pr.pc.i].parent == Some(p) && !s.procs[pr.pc.i].locked && s.procs[pr.pc.i].state.ZOMBIE?
       case GiveUp(p) => pr.pc.WaitScan? && pr.pc.i >= |s.procs| && !pr.locked && (!pr.pc.havekids || pr.killed)
       case LockSelf(p) => pr.pc.WaitScan? && pr.pc.i >= |s.procs| && !pr.locked && pr.pc.havekids
       case ReleaseWait(p) => pr.pc.SleepLocked?
       case GoToSleep(p) => pr.pc.SleepReleased?
       case SchedRelease(p) => pr.locked && (pr.state.SLEEPING? || pr.state.ZOMBIE?)
       case Schedule(p) => pr.state.RUNNABLE? && !pr.locked
       case Resume(p) => pr.state.RUNNING? && pr.locked && !pr.pc.SleepLocked? && !pr.pc.SleepReleased?
       case Yield(p) => pr.state.RUNNING? && !pr.locked && !HoldsWait(pr.pc)
       case SleepElsewhere(p, c) => pr.state.RUNNING? && !pr.locked && pr.pc.User?
       case WakeElsewhere(p) => !pr.locked && pr.state.SLEEPING? && pr.chan.Elsewhere?
       case Kill(p) => !pr.locked && !pr.state.UNUSED?
  }

  function Set(s: System, p: nat, pr: Proc): System
    requires p < |s.procs|
  {
    s.(procs := s.procs[p := pr])
  }

  /** One turn of the loops in reparent() and wakeup(), called from exit(). */
  function ExitTurnOf(s: System, init: nat, p: nat): System
    requires p < |s.procs|
  {
    var pr := s.procs[p];
    match pr.pc
    case Reparent(i) =>
      if i >= |s.procs| then Set(s, p, pr.(pc := WakeParent(0)))
      else if s.procs[i].parent != Some(p) then Set(s, p, pr.(pc := Reparent(i + 1)))
      else Set(Set(s, i, s.procs[i].(parent := Some(init))), p,
               (if i == p then pr.(parent := Some(init)) else pr).(pc := WakeInit(i, 0)))
    case WakeInit(i, j) =>
      if j >= |s.procs| then Set(s, p, pr.(pc := Reparent(i + 1)))
      else if j == p then Set(s, p, pr.(pc := WakeInit(i, j + 1)))
      else Set(Set(s, j, Woken(s.procs[j], OnProc(init))), p, pr.(pc := WakeInit(i, j + 1)))
    case WakeParent(j) =>
      if j >= |s.procs| || j == p then Set(s, p, pr.(pc := WakeParent(j + 1)))
      else Set(Set(s, j, Woken(s.procs[j], ParentChan(pr))), p, pr.(pc := WakeParent(j + 1)))
    case _ => s
  }

  /** One turn of wait()'s loop over the table. */
  function WaitTurnOf(s: System, p: nat): System
    requires p < |s.procs| && s.procs[p].pc.WaitScan? && s.procs[p].pc.i < |s.procs|
  {
    var pr, i := s.procs[p], s.procs[p].pc.i;
    if s.procs[i].parent != Some(p) then Set(s, p, pr.(pc := WaitScan(i + 1, pr.pc.havekids)))
    else if !s.procs[i].state.ZOMBIE? then Set(s, p, pr.(pc := WaitScan(i + 1, true)))
    else Set(Set(s, i, BLANK), p, pr.(pc := User)).(wait := None, reaped := s.reaped + [s.procs[i].pid])
  }

  function ForkOf(s: System, p: nat, np: nat): System
    requires p < |s.procs| && np < |s.procs|
  {
    Set(Set(s, np, BLANK.(state := USED, pid := s.nextpid)), p,
        s.procs[p].(pc := ForkMade(np))).(nextpid := s.nextpid + 1)
  }

  function SetParentOf(s: System, p: nat, np: nat): System
    requires p < |s.procs| && np < |s.procs|
  {
    Set(Set(s, np, s.procs[np].(parent := Some(p))), p, s.procs[p].(pc := ForkParented(np)))
  }

  function LaunchOf(s: System, p: nat, np: nat): System
    requires p < |s.procs| && np < |s.procs|
  {
    Set(Set(s, np, s.procs[np].(state := RUNNABLE)), p, s.procs[p].(pc := User))
  }

  function Take(s: System, init: nat, t: Step): System
    requires Enabled(s, init, t)
  {
    var pr := s.procs[t.p];
    match t
    case Fork(p, np) => ForkOf(s, p, np)
    case ForkFail(p, np) => s.(nextpid := s.nextpid + 1)
    case SetParent(p) => SetParentOf(s, p, pr.pc.np)
    case Launch(p) => LaunchOf(s, p, pr.pc.np)
    case Exit(p) => Set(s, p, pr.(pc := Reparent(0))).(wait := Some(p))
    case ExitTurn(p) => ExitTurnOf(s, init, p)
    case Zombify(p) => Set(s, p, pr.(state := ZOMBIE, locked := true, pc := Dead)).(wait := None,
            exited := s.exited + [pr.pid])
    case Wait(p) => Set(s, p, pr.(pc := WaitScan(0, false))).(wait := Some(p))
    case WaitTurn(p) => WaitTurnOf(s, p)
    case WaitFault(p) => Set(s, p, pr.(pc := User)).(wait := None)
    case GiveUp(p) => Set(s, p, pr.(pc := User)).(wait := None)
    case LockSelf(p) => Set(s, p, pr.(locked := true, pc := SleepLocked))
    case ReleaseWait(p) => Set(s, p, pr.(pc := SleepReleased)).(wait := None)
    case GoToSleep(p) => Set(s, p, pr.(chan := OnProc(p), state := SLEEPING, pc := Asleep))
    case SchedRelease(p) => Set(s, p, pr.(locked := false))
    case Schedule(p) => Set(s, p, pr.(state := RUNNING, locked := true))
    case Resume(p) =>
      Set(s, p, pr.(locked := false, chan := Nowhere,
                    pc := if pr.pc.Asleep? then WaitAgain else if pr.pc.AsleepElsewhere? then User else pr.pc))
    case Yield(p) => Set(s, p, pr.(state := RUNNABLE))
    case SleepElsewhere(p, c) => Set(s, p,
                                     pr.(chan := Elsewhere(c), state := SLEEPING, locked := true,
                                         pc := AsleepElsewhere))
    case WakeElsewhere(p) => Set(s, p, pr.(state := RUNNABLE))
    case Kill(p) => Set(s, p, (if pr.state.SLEEPING? then pr.(state := RUNNABLE) else pr).(killed := true))
  }

  // ---- invariants ----

  /** Asleep in wait(), or past the point of no return. */
  predicate ToSleep(pr: Proc) { pr.pc.SleepLocked? || pr.pc.SleepReleased? || (pr.pc.Asleep? && pr.state.SLEEPING?) }

  predicate IsZombieChild(pr: Proc, q: nat) { pr.state.ZOMBIE? && pr.parent == Some(q) }

  /** The slots that an exiting process has already taken from its children. */
  function Seen(pc: Pc, n: nat): nat
  {
    match pc
    case Reparent(i) => i
    case WakeInit(i, _) => i + 1
    case WakeParent(_) => n
    case Dead => n
    case _ => 0
  }

  /** A process's place in the code agrees with its state and with the locks. */
  predicate PlaceOk(s: System, p: nat, pr: Proc)
  {
    && (HoldsWait(pr.pc) <==> s.wait == Some(p))
    && (HoldsWait(pr.pc) || pr.pc.SleepReleased? || pr.pc.WaitAgain? ==> pr.state.RUNNING? || pr.state.RUNNABLE?)
    && (HoldsWait(pr.pc) || pr.pc.SleepReleased? ==> pr.state.RUNNING?)
    && (pr.pc.SleepLocked? || pr.pc.SleepReleased? ==> pr.locked)
    && (HoldsWait(pr.pc) && !pr.pc.SleepLocked? ==> !pr.locked)
    && (pr.pc.Dead? <==> pr.state.ZOMBIE?)
    && (pr.state.SLEEPING? ==>
        (pr.pc.Asleep? && pr.chan == OnProc(p)) || (pr.pc.AsleepElsewhere? && pr.chan.Elsewhere?))
    && (pr.state.UNUSED? ==> pr == BLANK)
    && (pr.state.USED? ==> pr.pc.User? && !pr.locked)
  }

  /** A recorded parent is a live process, not a zombie, and not one that has given its children away. */
  predicate ParentOk(s: System, k: nat, pr: Proc)
  {
    pr.parent.Some? ==>
      && pr.parent.value < |s.procs| && pr.parent.value != k
      && !s.procs[pr.parent.value].state.UNUSED? && !s.procs[pr.parent.value].state.USED?
          && !s.procs[pr.parent.value].state.ZOMBIE?
      && Seen(s.procs[pr.parent.value].pc, |s.procs|) <= k
  }

  /** A child under construction belongs to one fork(). */
  predicate ForkOk(s: System, p: nat, pr: Proc)
  {
    pr.pc.ForkMade? || pr.pc.ForkParented? ==>
      && pr.pc.np < |s.procs| && pr.pc.np != p && s.procs[pr.pc.np].state.USED?
      && s.procs[pr.pc.np].parent == (if pr.pc.ForkMade? then None else Some(p))
      && (pr.state.RUNNING? || pr.state.RUNNABLE?)
  }

  /** Init, while an exiting process has given it a child but not woken it yet. */
  predicate WakePending(s: System, init: nat, q: nat)
  {
    && q == init && s.wait.Some? && s.wait.value < |s.procs|
    && s.procs[s.wait.value].pc.WakeInit? && s.procs[s.wait.value].pc.j <= init
  }

  /** No process sleeps on a zombie child. */
  predicate SleepOk(s: System, init: nat, q: nat, pr: Proc)
  {
    ToSleep(pr) && !WakePending(s, init, q) ==> forall k :: 0 <= k < |s.procs| ==> !IsZombieChild(s.procs[k], q)
  }

  /** What the holder of wait_lock has established so far. */
  predicate HolderOk(s: System, init: nat, h: nat, pr: Proc)
  {
    match pr.pc
    case WakeInit(_, j) => init < j && init < |s.procs| ==> !ToSleep(s.procs[init])
    case WakeParent(j) => pr.parent.Some? && pr.parent.value < j && pr.parent.value < |s.procs| ==>
        !ToSleep(s.procs[pr.parent.value])
    case WaitScan(i, havekids) =>
      && (forall k :: 0 <= k < i && k < |s.procs| ==> !IsZombieChild(s.procs[k], h))
      && (havekids <==> exists k :: 0 <= k < i && k < |s.procs| && s.procs[k].parent == Some(h))
    case _ => true
  }

  predicate ProcOk(s: System, init: nat, p: nat)
    requires p < |s.procs|
  {
    var pr := s.procs[p];
    PlaceOk(s, p, pr) && ParentOk(s, p, pr) && ForkOk(s, p, pr) && SleepOk(s, init, p, pr) && HolderOk(s, init, p, pr)
  }

  predicate InitOk(s: System, init: nat)
  {
    && init < |s.procs| && Seen(s.procs[init].pc, 1) == 0 && !s.procs[init].pc.Reparent? && s.procs[init].parent.None?
    && !s.procs[init].state.UNUSED? && !s.procs[init].state.USED? && !s.procs[init].state.ZOMBIE?
  }

  /** Two forks do not share a child. */
  predicate ForksApart(s: System)
  {
    forall p, q :: 0 <= p < |s.procs| && 0 <= q < |s.procs| ==>
      Making(s.procs[p].pc).Some? && Making(s.procs[p].pc) == Making(s.procs[q].pc) ==> p == q
  }

  function Making(pc: Pc): Option<nat> { if pc.ForkMade? || pc.ForkParented? then Some(pc.np) else None }

  predicate Inv(s: System, init: nat)
  {
    && InitOk(s, init) && ForksApart(s)
    && forall p :: 0 <= p < |s.procs| ==> ProcOk(s, init, p)
  }

  // ---- what steps keep ----

  /** No process became a zombie child of q, or set out to sleep. */
  ghost predicate NoNewSleep(s: System, s': System)
  {
    && |s'.procs| == |s.procs|
    && (forall k, q: nat :: 0 <= k < |s.procs| && IsZombieChild(s'.procs[k], q) ==> IsZombieChild(s.procs[k], q))
    && (forall q :: 0 <= q < |s.procs| && ToSleep(s'.procs[q]) ==> ToSleep(s.procs[q]))
  }

  predicate SameParents(s: System, s': System)
  {
    |s'.procs| == |s.procs| && forall k :: 0 <= k < |s.procs| ==> s'.procs[k].parent == s.procs[k].parent
  }

  lemma SleepKept(s: System, s': System, init: nat, q: nat)
    requires NoNewSleep(s, s') && q < |s.procs| && SleepOk(s, init, q, s.procs[q])
    requires WakePending(s, init, q) ==> WakePending(s', init, q)
    ensures SleepOk(s', init, q, s'.procs[q])
  {
  }

  lemma HolderKept(s: System, s': System, init: nat, h: nat)
    requires NoNewSleep(s, s') && SameParents(s, s') && h < |s.procs| && HolderOk(s, init, h, s.procs[h])
    requires s'.procs[h].pc == s.procs[h].pc
    ensures HolderOk(s', init, h, s'.procs[h])
  {
  }

  lemma NotHolder(s: System, init: nat, h: nat, pr: Proc)
    requires !HoldsWait(pr.pc)
    ensures HolderOk(s, init, h, pr)
  {
  }

  /** A process changed neither its parent nor whether it is there or dead, gave away only slots that are
      not its children, and only the holder of wait_lock set out to sleep or ended the wait for init. */
  ghost predicate QuietChange(s: System, s': System, init: nat, p: nat)
  {
    && p < |s.procs| == |s'.procs| && s'.procs == s.procs[p := s'.procs[p]]
    && (s'.wait == s.wait || (s.wait == None && s'.wait == Some(p)) || (s.wait == Some(p) && s'.wait == None))
    && var a, b := s.procs[p], s'.procs[p];
       && b.parent == a.parent && b.state.UNUSED? == a.state.UNUSED? && b.state.USED? == a.state.USED?
           && b.state.ZOMBIE? == a.state.ZOMBIE?
       && (forall k :: 0 <= k < |s.procs| && s.procs[k].parent == Some(p) && Seen(a.pc, |s.procs|) <= k ==>
           Seen(b.pc, |s.procs|) <= k)
       && Making(b.pc) == Making(a.pc) && (ToSleep(b) ==> ToSleep(a) || s.wait == Some(p))
       && (WakePending(s, init, init) ==> WakePending(s', init, init))
  }

  lemma Quiet(s: System, s': System, init: nat, p: nat)
    requires Inv(s, init) && QuietChange(s, s', init, p)
    requires ProcOk(s', init, p) && InitOk(s', init)
    ensures Inv(s', init)
  {
    hide HolderOk, SleepOk, InitOk, WakePending;
    assert ProcOk(s, init, p);
    forall q | 0 <= q < |s'.procs| && q != p
      ensures ProcOk(s', init, q)
    {
      assert ProcOk(s, init, q);
      QuietSleep(s, s', init, p, q);
      if HoldsWait(s.procs[q].pc) {
        HolderKept(s, s', init, q);
      } else {
        NotHolder(s', init, q, s'.procs[q]);
      }
    }
  }

  lemma QuietSleep(s: System, s': System, init: nat, p: nat, q: nat)
    requires Inv(s, init) && QuietChange(s, s', init, p) && q < |s.procs| && q != p
    ensures SleepOk(s', init, q, s'.procs[q])
  {
    hide HolderOk, InitOk, Seen, Making;
    assert ProcOk(s, init, q);
    forall k | 0 <= k < |s.procs|
      ensures IsZombieChild(s'.procs[k], q) == IsZombieChild(s.procs[k], q)
    {
    }
  }

  /** Steps of the scheduler, and a fork() that fails after it has taken a pid. */
  lemma SchedulerKeeps(s: System, init: nat, t: Step)
    requires Inv(s, init) && Enabled(s, init, t)
    requires t.SchedRelease? || t.Schedule? || t.Resume? || t.Yield? || t.ForkFail?
    ensures Inv(Take(s, init, t), init)
  {
    hide HolderOk;
    var s' := Take(s, init, t);
    assert ProcOk(s, init, t.p);
    NotHolder(s', init, t.p, s'.procs[t.p]);
    Quiet(s, s', init, t.p);
  }

  /** Going to sleep, and waking up from elsewhere. */
  lemma SleepKeeps(s: System, init: nat, t: Step)
    requires Inv(s, init) && Enabled(s, init, t) && (t.SleepElsewhere? || t.WakeElsewhere? || t.GoToSleep?)
    ensures Inv(Take(s, init, t), init)
  {
    hide HolderOk;
    var s' := Take(s, init, t);
    assert ProcOk(s, init, t.p);
    NotHolder(s', init, t.p, s'.procs[t.p]);
    Quiet(s, s', init, t.p);
  }

  /** Releasing wait_lock. */
  lemma WaitEndKeeps(s: System, init: nat, t: Step)
    requires Inv(s, init) && Enabled(s, init, t) && (t.WaitFault? || t.GiveUp? || t.ReleaseWait?)
    ensures Inv(Take(s, init, t), init)
  {
    hide HolderOk;
    var s' := Take(s, init, t);
    assert ProcOk(s, init, t.p);
    NotHolder(s', init, t.p, s'.procs[t.p]);
    Quiet(s, s', init, t.p);
  }

  /** Acquiring wait_lock, and setting out to sleep with it. */
  lemma WaitBeginKeeps(s: System, init: nat, t: Step)
    requires Inv(s, init) && Enabled(s, init, t) && (t.Exit? || t.Wait? || t.LockSelf?)
    ensures Inv(Take(s, init, t), init)
  {
    assert ProcOk(s, init, t.p);
    Quiet(s, Take(s, init, t), init, t.p);
  }

  lemma KillKeeps(s: System, init: nat, t: Step)
    requires Inv(s, init) && Enabled(s, init, t) && t.Kill?
    ensures Inv(Take(s, init, t), init)
  {
    hide HolderOk;
    var s' := Take(s, init, t);
    assert ProcOk(s, init, t.p);
    HolderKept(s, s', init, t.p);
    Quiet(s, s', init, t.p);
  }

  lemma ForkKeeps(s: System, init: nat, p: nat, np: nat)
    requires Inv(s, init) && p < |s.procs| && np < |s.procs| && s.procs[p].state.RUNNING? && s.procs[p].pc.User?
    requires s.procs[np].state.UNUSED?
    ensures Inv(ForkOf(s, p, np), init)
  {
    hide HolderOk, SleepOk;
    var s' := ForkOf(s, p, np);
    assert ProcOk(s, init, p) && ProcOk(s, init, np);
    forall q | 0 <= q < |s.procs|
      ensures Making(s.procs[q].pc) != Some(np)
    {
      assert ProcOk(s, init, q);
    }
    forall q | 0 <= q < |s'.procs|
      ensures ProcOk(s', init, q)
    {
      ForkKeepsOne(s, init, p, np, q);
    }
  }

  lemma ForkKeepsOne(s: System, init: nat, p: nat, np: nat, q: nat)
    requires Inv(s, init) && p < |s.procs| && np < |s.procs| && q < |s.procs| && s.procs[p].state.RUNNING?
    requires s.procs[p].pc.User? && s.procs[np].state.UNUSED?
    ensures ProcOk(ForkOf(s, p, np), init, q)
  {
    hide HolderOk, SleepOk;
    var s' := ForkOf(s, p, np);
    assert ProcOk(s, init, p) && ProcOk(s, init, np) && ProcOk(s, init, q);
    SleepKept(s, s', init, q);
    if HoldsWait(s'.procs[q].pc) {
      HolderKept(s, s', init, q);
    } else {
      NotHolder(s', init, q, s'.procs[q]);
    }
  }

  lemma SetParentKeeps(s: System, init: nat, p: nat, np: nat)
    requires Inv(s, init) && p < |s.procs| && np < |s.procs| && s.procs[p].pc == ForkMade(np) && s.wait.None?
    ensures Inv(SetParentOf(s, p, np), init)
  {
    hide HolderOk, SleepOk;
    var s' := SetParentOf(s, p, np);
    assert ProcOk(s, init, p) && ProcOk(s, init, np);
    forall q | 0 <= q < |s'.procs|
      ensures ProcOk(s', init, q)
    {
      SetParentKeepsOne(s, init, p, np, q);
    }
  }

  lemma SetParentKeepsOne(s: System, init: nat, p: nat, np: nat, q: nat)
    requires Inv(s, init) && p < |s.procs| && np < |s.procs| && q < |s.procs| && s.procs[p].pc == ForkMade(np)
    requires s.wait.None?
    ensures ProcOk(SetParentOf(s, p, np), init, q)
  {
    hide HolderOk, SleepOk;
    var s' := SetParentOf(s, p, np);
    assert ProcOk(s, init, p) && ProcOk(s, init, np) && ProcOk(s, init, q);
    SleepKept(s, s', init, q);
    NotHolder(s', init, q, s'.procs[q]);
  }

  lemma LaunchKeeps(s: System, init: nat, p: nat, np: nat)
    requires Inv(s, init) && p < |s.procs| && np < |s.procs| && s.procs[p].pc == ForkParented(np)
    ensures Inv(LaunchOf(s, p, np), init)
  {
    hide HolderOk, SleepOk;
    var s' := LaunchOf(s, p, np);
    assert ProcOk(s, init, p) && ProcOk(s, init, np);
    forall q | 0 <= q < |s'.procs|
      ensures ProcOk(s', init, q)
    {
      LaunchKeepsOne(s, init, p, np, q);
    }
  }

  lemma LaunchKeepsOne(s: System, init: nat, p: nat, np: nat, q: nat)
    requires Inv(s, init) && p < |s.procs| && np < |s.procs| && q < |s.procs| && s.procs[p].pc == ForkParented(np)
    ensures ProcOk(LaunchOf(s, p, np), init, q)
  {
    hide HolderOk, SleepOk;
    var s' := LaunchOf(s, p, np);
    assert ProcOk(s, init, p) && ProcOk(s, init, np) && ProcOk(s, init, q);
    SleepKept(s, s', init, q);
    if HoldsWait(s'.procs[q].pc) {
      HolderKept(s, s', init, q);
    } else {
      NotHolder(s', init, q, s'.procs[q]);
    }
  }

  lemma ZombifyKeeps(s: System, init: nat, t: Step)
    requires Inv(s, init) && Enabled(s, init, t) && t.Zombify?
    ensures Inv(Take(s, init, t), init)
  {
    hide HolderOk;
    var s' := Take(s, init, t);
    assert ProcOk(s, init, t.p);
    ParentAwake(s, init, t.p);
    forall p | 0 <= p < |s'.procs|
      ensures ProcOk(s', init, p)
    {
      assert ProcOk(s, init, p);
      NotHolder(s', init, p, s'.procs[p]);
    }
  }

  /** When a process turns into a zombie, its parent is not asleep in wait(). */
  lemma ParentAwake(s: System, init: nat, p: nat)
    requires Inv(s, init) && p < |s.procs| && s.procs[p].pc.WakeParent? && s.procs[p].pc.j >= |s.procs|
    ensures s.procs[p].parent.Some? ==>
            s.procs[p].parent.value < |s.procs| && !ToSleep(s.procs[s.procs[p].parent.value])
  {
    hide SleepOk;
    assert ProcOk(s, init, p);
  }

  // ---- the loops of exit() ----

  lemma WakeSlotKeeps(s: System, init: nat, j: nat, chan: Chan)
    requires Inv(s, init) && j < |s.procs|
    ensures Inv(Set(s, j, Woken(s.procs[j], chan)), init)
    ensures QuietChange(s, Set(s, j, Woken(s.procs[j], chan)), init, j)
  {
    hide HolderOk;
    var s' := Set(s, j, Woken(s.procs[j], chan));
    assert ProcOk(s, init, j);
    HolderKept(s, s', init, j);
    Quiet(s, s', init, j);
  }

  /** A process whose lock is free, and that does not hold wait_lock, is awake after wakeup() on it. */
  lemma WokenUp(s: System, init: nat, j: nat)
    requires Inv(s, init) && j < |s.procs| && !s.procs[j].locked && s.wait != Some(j)
    ensures !ToSleep(Woken(s.procs[j], OnProc(j)))
  {
    hide HolderOk, SleepOk;
    assert ProcOk(s, init, j);
  }

  /** The exiting process moves on within its loops. */
  lemma Advance(s: System, init: nat, p: nat, pc: Pc)
    requires Inv(s, init) && p < |s.procs| && p != init
    requires var a := s.procs[p].pc;
             || (a.Reparent? && a.i >= |s.procs| && pc == WakeParent(0))
             || (a.Reparent? && a.i < |s.procs| && s.procs[a.i].parent != Some(p) && pc == Reparent(a.i + 1))
             || (a.WakeInit? && a.j >= |s.procs| && pc == Reparent(a.i + 1))
             || (a.WakeInit? && a.j < |s.procs| && pc == WakeInit(a.i, a.j + 1)
                 && (a.j == init ==> !ToSleep(s.procs[init])))
             || (a.WakeParent? && a.j < |s.procs| && pc == WakeParent(a.j + 1)
                 && (s.procs[p].parent == Some(a.j) ==> !ToSleep(s.procs[a.j])))
    ensures Inv(Set(s, p, s.procs[p].(pc := pc)), init)
  {
    var s' := Set(s, p, s.procs[p].(pc := pc));
    assert ProcOk(s, init, p);
    assert SleepOk(s', init, p, s'.procs[p]);
    if s.procs[p].pc.WakeInit? && s.procs[p].pc.j == init {
      InitWoken(s, s', init, p);
    } else {
      Quiet(s, s', init, p);
    }
  }

  /** Init need not be waited for any more, because it is awake. */
  lemma InitWoken(s: System, s': System, init: nat, p: nat)
    requires Inv(s, init) && p < |s.procs| && p != init && s.procs[p].pc.WakeInit? && s.procs[p].pc.j == init
    requires !ToSleep(s.procs[init])
    requires s' == Set(s, p, s.procs[p].(pc := WakeInit(s.procs[p].pc.i, init + 1)))
    ensures Inv(s', init)
  {
    hide HolderOk, SleepOk;
    assert ProcOk(s, init, p);
    forall q | 0 <= q < |s'.procs|
      ensures ProcOk(s', init, q)
    {
      assert ProcOk(s, init, q);
      InitWokenSleep(s, s', init, p, q);
      if q != p {
        NotHolder(s', init, q, s'.procs[q]);
      } else {
        InitHolder(s', init, p);
      }
    }
  }

  lemma InitHolder(s: System, init: nat, p: nat)
    requires p < |s.procs| && init < |s.procs| && s.procs[p].pc.WakeInit? && !ToSleep(s.procs[init])
    ensures HolderOk(s, init, p, s.procs[p])
  {
  }

  lemma InitWokenSleep(s: System, s': System, init: nat, p: nat, q: nat)
    requires p < |s.procs| && q < |s.procs| && SleepOk(s, init, q, s.procs[q]) && init < |s.procs|
    requires !ToSleep(s.procs[init])
    requires s.procs[p].pc.WakeInit? && s' == Set(s, p, s.procs[p].(pc := WakeInit(s.procs[p].pc.i, init + 1)))
    ensures SleepOk(s', init, q, s'.procs[q])
  {
  }

  lemma ExitTurnKeeps(s: System, init: nat, p: nat)
    requires Inv(s, init) && Enabled(s, init, ExitTurn(p))
    ensures Inv(ExitTurnOf(s, init, p), init)
  {
    hide Inv;
    NotInit(s, init, p);
    if s.procs[p].pc.Reparent? {
      ReparentTurn(s, init, p);
    } else if s.procs[p].pc.WakeInit? {
      WakeInitTurn(s, init, p);
    } else {
      WakeParentTurn(s, init, p);
    }
  }

  lemma ReparentTurn(s: System, init: nat, p: nat)
    requires Inv(s, init) && p < |s.procs| && p != init && s.procs[p].pc.Reparent?
    ensures Inv(ExitTurnOf(s, init, p), init)
  {
    hide Inv;
    var i := s.procs[p].pc.i;
    if i < |s.procs| && s.procs[i].parent == Some(p) {
      GiveToInit(s, init, p);
    } else {
      Advance(s, init, p, if i >= |s.procs| then WakeParent(0) else Reparent(i + 1));
    }
  }

  lemma WakeInitTurn(s: System, init: nat, p: nat)
    requires Inv(s, init) && p < |s.procs| && p != init && s.procs[p].pc.WakeInit?
    requires s.procs[p].pc.j < |s.procs| && s.procs[p].pc.j != p ==> !s.procs[s.procs[p].pc.j].locked
    ensures Inv(ExitTurnOf(s, init, p), init)
  {
    hide Inv;
    var i, j := s.procs[p].pc.i, s.procs[p].pc.j;
    if j < |s.procs| && j != p {
      Holder(s, init, p);
      WakeSlotKeeps(s, init, j, OnProc(init));
      WokenUp(s, init, j);
      Advance(Set(s, j, Woken(s.procs[j], OnProc(init))), init, p, WakeInit(i, j + 1));
    } else {
      Advance(s, init, p, if j >= |s.procs| then Reparent(i + 1) else WakeInit(i, j + 1));
    }
  }

  lemma WakeParentTurn(s: System, init: nat, p: nat)
    requires Inv(s, init) && p < |s.procs| && p != init && s.procs[p].pc.WakeParent? && s.procs[p].pc.j < |s.procs|
    requires s.procs[p].pc.j != p ==> !s.procs[s.procs[p].pc.j].locked
    ensures Inv(ExitTurnOf(s, init, p), init)
  {
    hide Inv;
    var j := s.procs[p].pc.j;
    if j != p {
      Holder(s, init, p);
      WakeSlotKeeps(s, init, j, ParentChan(s.procs[p]));
      WokenUp(s, init, j);
      Advance(Set(s, j, Woken(s.procs[j], ParentChan(s.procs[p]))), init, p, WakeParent(j + 1));
    } else {
      NotOwnParent(s, init, p);
      Advance(s, init, p, WakeParent(j + 1));
    }
  }

  lemma Holder(s: System, init: nat, p: nat)
    requires Inv(s, init) && p < |s.procs| && HoldsWait(s.procs[p].pc)
    ensures s.wait == Some(p)
  {
    hide HolderOk, SleepOk, ParentOk, ForkOk;
    assert ProcOk(s, init, p);
  }

  lemma NotInit(s: System, init: nat, p: nat)
    requires Inv(s, init) && p < |s.procs|
    requires (s.procs[p].pc.Reparent? || s.procs[p].pc.WakeInit? || s.procs[p].pc.WakeParent?)
    ensures p != init
  {
  }

  lemma NotOwnParent(s: System, init: nat, p: nat)
    requires Inv(s, init) && p < |s.procs|
    ensures s.procs[p].parent != Some(p)
  {
    hide HolderOk, SleepOk;
    assert ProcOk(s, init, p);
  }

  /** A child is handed over: until init has been woken, it may sleep on a zombie. */
  lemma GiveToInit(s: System, init: nat, p: nat)
    requires Inv(s, init) && p < |s.procs| && p != init && s.procs[p].pc.Reparent?
    requires s.procs[p].pc.i < |s.procs| && s.procs[s.procs[p].pc.i].parent == Some(p)
    ensures Inv(ExitTurnOf(s, init, p), init)
  {
    hide HolderOk, SleepOk, ParentOk, ForkOk, PlaceOk;
    forall q | 0 <= q < |s.procs|
      ensures ProcOk(ExitTurnOf(s, init, p), init, q)
    {
      GiveToInitOne(s, init, p, q);
    }
  }

  lemma GiveToInitOne(s: System, init: nat, p: nat, q: nat)
    requires Inv(s, init) && p < |s.procs| && p != init && s.procs[p].pc.Reparent? && q < |s.procs|
    requires s.procs[p].pc.i < |s.procs| && s.procs[s.procs[p].pc.i].parent == Some(p)
    ensures ProcOk(ExitTurnOf(s, init, p), init, q)
  {
    hide HolderOk, SleepOk, ParentOk, ForkOk;
    var s' := ExitTurnOf(s, init, p);
    assert ProcOk(s, init, p) && ProcOk(s, init, q);
    GivenParent(s, init, p, q);
    GivenFork(s, init, p, q);
    GivenSleep(s, init, p, q);
    if q != p {
      NotHolder(s', init, q, s'.procs[q]);
    } else {
      FirstWake(s', init, p);
    }
  }

  lemma GivenParent(s: System, init: nat, p: nat, q: nat)
    requires Inv(s, init) && p < |s.procs| && p != init && s.procs[p].pc.Reparent? && q < |s.procs|
    requires s.procs[p].pc.i < |s.procs| && s.procs[s.procs[p].pc.i].parent == Some(p)
    ensures var s' := ExitTurnOf(s, init, p); ParentOk(s', q, s'.procs[q])
  {
    hide HolderOk, SleepOk, ForkOk, PlaceOk;
    assert ProcOk(s, init, q) && ProcOk(s, init, s.procs[p].pc.i);
  }

  lemma GivenFork(s: System, init: nat, p: nat, q: nat)
    requires Inv(s, init) && p < |s.procs| && p != init && s.procs[p].pc.Reparent? && q < |s.procs|
    requires s.procs[p].pc.i < |s.procs| && s.procs[s.procs[p].pc.i].parent == Some(p)
    ensures var s' := ExitTurnOf(s, init, p); ForkOk(s', q, s'.procs[q])
  {
    hide HolderOk, SleepOk, ParentOk;
    assert ProcOk(s, init, q) && ProcOk(s, init, p);
  }

  lemma FirstWake(s: System, init: nat, p: nat)
    requires p < |s.procs| && s.procs[p].pc.WakeInit? && s.procs[p].pc.j == 0
    ensures HolderOk(s, init, p, s.procs[p])
  {
  }

  lemma GivenSleep(s: System, init: nat, p: nat, q: nat)
    requires Inv(s, init) && p < |s.procs| && q < |s.procs| && p != init && s.procs[p].pc.Reparent?
    requires s.procs[p].pc.i < |s.procs| && s.procs[s.procs[p].pc.i].parent == Some(p)
    ensures var s' := ExitTurnOf(s, init, p); SleepOk(s', init, q, s'.procs[q])
  {
    hide HolderOk;
    var s' := ExitTurnOf(s, init, p);
    assert ProcOk(s, init, q) && ProcOk(s, init, p);
    if q != init {
      forall k | 0 <= k < |s.procs|
        ensures IsZombieChild(s'.procs[k], q) ==> IsZombieChild(s.procs[k], q)
      {
      }
    }
  }

  // ---- the loop of wait() ----

  lemma WaitTurnKeeps(s: System, init: nat, p: nat)
    requires Inv(s, init) && p < |s.procs| && s.procs[p].pc.WaitScan? && s.procs[p].pc.i < |s.procs|
    ensures Inv(WaitTurnOf(s, p), init)
  {
    hide HolderOk, SleepOk, ForkOk;
    var i := s.procs[p].pc.i;
    assert ProcOk(s, init, p) && ProcOk(s, init, i);
    if s.procs[i].parent == Some(p) && s.procs[i].state.ZOMBIE? {
      ReapKeeps(s, init, p, i);
    } else {
      ScanKeeps(s, init, p);
    }
  }

  lemma ScanKeeps(s: System, init: nat, p: nat)
    requires Inv(s, init) && p < |s.procs| && s.procs[p].pc.WaitScan? && s.procs[p].pc.i < |s.procs|
    requires !IsZombieChild(s.procs[s.procs[p].pc.i], p)
    ensures Inv(WaitTurnOf(s, p), init)
  {
    hide SleepOk;
    var s', i := WaitTurnOf(s, p), s.procs[p].pc.i;
    assert ProcOk(s, init, p);
    ScanHolder(s, init, p);
    assert SleepOk(s', init, p, s'.procs[p]) by { NotAsleep(s', init, p); }
    Quiet(s, s', init, p);
  }

  lemma NotAsleep(s: System, init: nat, p: nat)
    requires p < |s.procs| && !ToSleep(s.procs[p])
    ensures SleepOk(s, init, p, s.procs[p])
  {
  }

  lemma ScanHolder(s: System, init: nat, p: nat)
    requires p < |s.procs| && s.procs[p].pc.WaitScan? && s.procs[p].pc.i < |s.procs| && HolderOk(s, init, p, s.procs[p])
    requires !IsZombieChild(s.procs[s.procs[p].pc.i], p)
    ensures var s' := WaitTurnOf(s, p); HolderOk(s', init, p, s'.procs[p])
  {
    var s', i := WaitTurnOf(s, p), s.procs[p].pc.i;
    forall k | 0 <= k < |s.procs|
      ensures s'.procs[k].parent == s.procs[k].parent && IsZombieChild(s'.procs[k], p) == IsZombieChild(s.procs[k], p)
    {
    }
    if s'.procs[p].pc.havekids {
      if s.procs[i].parent == Some(p) {
        assert s'.procs[i].parent == Some(p);
      } else {
        var k :| 0 <= k < i && s.procs[k].parent == Some(p);
        assert s'.procs[k].parent == Some(p);
      }
    }
  }

  lemma ReapKeeps(s: System, init: nat, p: nat, i: nat)
    requires Inv(s, init) && p < |s.procs| && s.procs[p].pc.WaitScan? && s.procs[p].pc.i == i < |s.procs|
    requires IsZombieChild(s.procs[i], p)
    ensures Inv(WaitTurnOf(s, p), init)
  {
    hide HolderOk, SleepOk;
    var s' := WaitTurnOf(s, p);
    assert ProcOk(s, init, p) && ProcOk(s, init, i);
    forall q | 0 <= q < |s'.procs|
      ensures ProcOk(s', init, q)
    {
      assert ProcOk(s, init, q);
      SleepKept(s, s', init, q);
      NotHolder(s', init, q, s'.procs[q]);
    }
  }

  // ---- runs ----

  lemma StepInv(s: System, init: nat, t: Step)
    requires Inv(s, init) && Enabled(s, init, t)
    ensures Inv(Take(s, init, t), init)
  {
    hide Inv;
    match t
    case Fork(p, np) => ForkKeeps(s, init, p, np);
    case SetParent(p) => SetParentKeeps(s, init, p, s.procs[p].pc.np);
    case Launch(p) => LaunchKeeps(s, init, p, s.procs[p].pc.np);
    case ExitTurn(p) => ExitTurnKeeps(s, init, p);
    case Zombify(_) => ZombifyKeeps(s, init, t);
    case WaitTurn(p) => WaitTurnKeeps(s, init, p);
    case Kill(_) => KillKeeps(s, init, t);
    case _ =>
      if t.Exit? || t.Wait? || t.LockSelf? {
        WaitBeginKeeps(s, init, t);
      } else if t.WaitFault? || t.GiveUp? || t.ReleaseWait? {
        WaitEndKeeps(s, init, t);
      } else if t.SleepElsewhere? || t.WakeElsewhere? || t.GoToSleep? {
        SleepKeeps(s, init, t);
      } else {
        SchedulerKeeps(s, init, t);
      }
  }

  /** Pids of processes in the table are distinct; the pids that have exited are those that have been
      reaped and those of zombies, and none was reaped twice. */
  ghost predicate PidInv(s: System)
  {
    && (forall k :: 0 <= k < |s.procs| && !s.procs[k].state.UNUSED? ==> s.procs[k].pid < s.nextpid)
    && (forall k, l :: 0 <= k < l < |s.procs| && !s.procs[k].state.UNUSED? && !s.procs[l].state.UNUSED? ==>
        s.procs[k].pid != s.procs[l].pid)
    && (forall x :: x in s.exited || x in s.reaped ==> x < s.nextpid)
    && (forall i, j :: 0 <= i < j < |s.reaped| ==> s.reaped[i] != s.reaped[j])
    && (forall i, j :: 0 <= i < j < |s.exited| ==> s.exited[i] != s.exited[j])
    && (forall x :: x in s.reaped ==> x in s.exited)
    && (forall k :: 0 <= k < |s.procs| && !s.procs[k].state.UNUSED? ==> s.procs[k].pid !in s.reaped)
    && (forall k :: 0 <= k < |s.procs| && !s.procs[k].state.UNUSED? ==>
        (s.procs[k].pid in s.exited <==> s.procs[k].state.ZOMBIE?))
    && (forall x :: x in s.exited && x !in s.reaped ==> exists k :: 0 <= k < |s.procs| && ZombieWith(s.procs[k], x))
  }

  predicate ZombieWith(pr: Proc, pid: nat) { pr.state.ZOMBIE? && pr.pid == pid }

  /** Steps that neither make a process nor end one. */
  lemma PidsSame(s: System, s': System)
    requires PidInv(s) && |s'.procs| == |s.procs| && s'.nextpid >= s.nextpid && s'.exited == s.exited
    requires s'.reaped == s.reaped
    requires forall k :: 0 <= k < |s.procs| ==>
               && s'.procs[k].pid == s.procs[k].pid && s'.procs[k].state.UNUSED? == s.procs[k].state.UNUSED?
               && s'.procs[k].state.ZOMBIE? == s.procs[k].state.ZOMBIE?
    ensures PidInv(s')
  {
    forall x | x in s'.exited && x !in s'.reaped
      ensures exists k :: 0 <= k < |s'.procs| && ZombieWith(s'.procs[k], x)
    {
      var k :| 0 <= k < |s.procs| && ZombieWith(s.procs[k], x);
      assert ZombieWith(s'.procs[k], x);
    }
  }

  lemma PidFork(s: System, p: nat, np: nat)
    requires PidInv(s) && p < |s.procs| && np < |s.procs| && s.procs[np].state.UNUSED? && p != np
    ensures PidInv(ForkOf(s, p, np))
  {
    var s' := ForkOf(s, p, np);
    forall x | x in s'.exited && x !in s'.reaped
      ensures exists k :: 0 <= k < |s'.procs| && ZombieWith(s'.procs[k], x)
    {
      var k :| 0 <= k < |s.procs| && ZombieWith(s.procs[k], x);
      assert ZombieWith(s'.procs[k], x);
    }
  }

  lemma PidZombify(s: System, init: nat, t: Step)
    requires PidInv(s) && Inv(s, init) && Enabled(s, init, t) && t.Zombify?
    ensures PidInv(Take(s, init, t))
  {
    hide HolderOk, SleepOk, ParentOk, ForkOk;
    var s' := Take(s, init, t);
    assert ProcOk(s, init, t.p);
    forall x | x in s'.exited && x !in s'.reaped
      ensures exists k :: 0 <= k < |s'.procs| && ZombieWith(s'.procs[k], x)
    {
      if x == s.procs[t.p].pid {
        assert ZombieWith(s'.procs[t.p], x);
      } else {
        var k :| 0 <= k < |s.procs| && ZombieWith(s.procs[k], x);
        assert ZombieWith(s'.procs[k], x);
      }
    }
  }

  lemma PidReap(s: System, p: nat)
    requires PidInv(s) && p < |s.procs| && s.procs[p].pc.WaitScan? && s.procs[p].pc.i < |s.procs|
    requires !s.procs[p].state.ZOMBIE?
    requires IsZombieChild(s.procs[s.procs[p].pc.i], p)
    ensures PidInv(WaitTurnOf(s, p))
  {
    var s', i := WaitTurnOf(s, p), s.procs[p].pc.i;
    forall x | x in s'.exited && x !in s'.reaped
      ensures exists k :: 0 <= k < |s'.procs| && ZombieWith(s'.procs[k], x)
    {
      assert x !in s.reaped && x != s'.reaped[|s.reaped|];
      var k :| 0 <= k < |s.procs| && ZombieWith(s.procs[k], x);
      assert ZombieWith(s'.procs[k], x);
    }
  }

  lemma PidStep(s: System, init: nat, t: Step)
    requires PidInv(s) && Inv(s, init) && Enabled(s, init, t)
    ensures PidInv(Take(s, init, t))
  {
    hide HolderOk, SleepOk, ParentOk, PidInv, PlaceOk, ForkOk, ExitTurnOf, WaitTurnOf, Set;
    if t.Fork? {
      PidFork(s, t.p, t.np);
    } else if t.Zombify? {
      PidZombify(s, init, t);
    } else if t.SetParent? || t.Launch? {
      PidFamily(s, init, t.p);
    } else if t.ExitTurn? {
      PidExitTurn(s, init, t.p);
    } else if t.WaitTurn? {
      PidWaitTurn(s, init, t.p);
    } else {
      PidOther(s, init, t);
    }
  }

  lemma PidFamily(s: System, init: nat, p: nat)
    requires PidInv(s) && Inv(s, init) && p < |s.procs| && Making(s.procs[p].pc).Some?
    ensures s.procs[p].pc.np < |s.procs| && PidInv(SetParentOf(s, p, s.procs[p].pc.np))
    ensures PidInv(LaunchOf(s, p, s.procs[p].pc.np))
  {
    hide HolderOk, SleepOk, ParentOk, PidInv;
    assert ProcOk(s, init, p);
    PidsSame(s, SetParentOf(s, p, s.procs[p].pc.np));
    PidsSame(s, LaunchOf(s, p, s.procs[p].pc.np));
  }

  lemma PidExitTurn(s: System, init: nat, p: nat)
    requires PidInv(s) && p < |s.procs|
    ensures PidInv(ExitTurnOf(s, init, p))
  {
    hide PidInv;
    var s' := ExitTurnOf(s, init, p);
    forall k | 0 <= k < |s.procs|
      ensures s'.procs[k].pid == s.procs[k].pid && s'.procs[k].state.UNUSED? == s.procs[k].state.UNUSED?
      ensures s'.procs[k].state.ZOMBIE? == s.procs[k].state.ZOMBIE?
    {
    }
    PidsSame(s, s');
  }

  lemma PidWaitTurn(s: System, init: nat, p: nat)
    requires PidInv(s) && Inv(s, init) && p < |s.procs| && s.procs[p].pc.WaitScan? && s.procs[p].pc.i < |s.procs|
    ensures PidInv(WaitTurnOf(s, p))
  {
    hide HolderOk, SleepOk, ParentOk, ForkOk, PidInv;
    assert ProcOk(s, init, p);
    if IsZombieChild(s.procs[s.procs[p].pc.i], p) {
      PidReap(s, p);
    } else {
      PidsSame(s, WaitTurnOf(s, p));
    }
  }

  lemma PidOther(s: System, init: nat, t: Step)
    requires PidInv(s) && Inv(s, init) && Enabled(s, init, t)
    requires !t.Fork? && !t.SetParent? && !t.Launch? && !t.ExitTurn? && !t.Zombify? && !t.WaitTurn?
    ensures PidInv(Take(s, init, t))
  {
    hide HolderOk, SleepOk, ParentOk, ForkOk, PidInv;
    assert ProcOk(s, init, t.p);
    PidsSame(s, Take(s, init, t));
  }

  /** After userinit(): only init is there. */
  predicate Start(s: System, init: nat)
  {
    && init < |s.procs| && s.wait.None? && s.nextpid == 2 && s.exited == [] && s.reaped == []
    && forall k :: 0 <= k < |s.procs| ==> s.procs[k] == if k == init then BLANK.(state := RUNNABLE, pid := 1) else BLANK
  }

  predicate Run(s: System, init: nat, steps: seq<Step>)
    decreases |steps|
  {
    steps == [] || (Enabled(s, init, steps[0]) && Run(Take(s, init, steps[0]), init, steps[1..]))
  }

  function After(s: System, init: nat, steps: seq<Step>): System
    requires Run(s, init, steps)
    decreases |steps|
  {
    if steps == [] then s else After(Take(s, init, steps[0]), init, steps[1..])
  }

  lemma {:induction false} RunInv(s: System, init: nat, steps: seq<Step>)
    requires Inv(s, init) && PidInv(s) && Run(s, init, steps)
    ensures Inv(After(s, init, steps), init) && PidInv(After(s, init, steps))
    decreases |steps|
  {
    hide Inv, PidInv, Enabled, Take;
    if steps != [] {
      StepInv(s, init, steps[0]);
      PidStep(s, init, steps[0]);
      RunInv(Take(s, init, steps[0]), init, steps[1..]);
    }
  }

  lemma ReachableInv(s: System, init: nat, steps: seq<Step>)
    requires Start(s, init) && Run(s, init, steps)
    ensures Inv(After(s, init, steps), init) && PidInv(After(s, init, steps))
  {
    RunInv(s, init, steps);
  }

  /** In every run, whenever wait_lock is free, no process asleep in wait() has a zombie child, although
      exit() calls wakeup() before it sets the state. */
  lemma NoLostWakeup(s: System, init: nat, steps: seq<Step>, q: nat, k: nat)
    requires Start(s, init) && Run(s, init, steps)
    requires var e := After(s, init, steps);
             e.wait.None? && q < |e.procs| && k < |e.procs| && e.procs[q].pc.Asleep? && e.procs[q].state.SLEEPING?
    ensures var e := After(s, init, steps); !IsZombieChild(e.procs[k], q)
  {
    hide HolderOk;
    ReachableInv(s, init, steps);
    assert ProcOk(After(s, init, steps), init, q);
  }

  /** In every run, each recorded parent is a live process and not a zombie. */
  lemma ParentsAlive(s: System, init: nat, steps: seq<Step>, k: nat)
    requires Start(s, init) && Run(s, init, steps) && k < |After(s, init, steps).procs|
    requires After(s, init, steps).procs[k].parent.Some?
    ensures var e := After(s, init, steps); var q := e.procs[k].parent.value;
            q < |e.procs| && q != k && !e.procs[q].state.UNUSED? && !e.procs[q].state.USED? && !e.procs[q].state.ZOMBIE?
  {
    hide HolderOk, SleepOk;
    ReachableInv(s, init, steps);
    assert ProcOk(After(s, init, steps), init, k);
  }

  /** In every run, no exit is reported twice, and every process that has exited has been reported or is
      still a zombie. */
  lemma ReapedOnce(s: System, init: nat, steps: seq<Step>)
    requires Start(s, init) && Run(s, init, steps)
    ensures var e := After(s, init, steps);
            && (forall i, j :: 0 <= i < j < |e.reaped| ==> e.reaped[i] != e.reaped[j])
            && (forall x :: x in e.reaped ==> x in e.exited)
            && (forall x :: x in e.exited ==> x in e.reaped || exists k ::
                0 <= k < |e.procs| && ZombieWith(e.procs[k], x))
  {
    hide Inv;
    ReachableInv(s, init, steps);
  }

  /** In every run, wait() gives up only on a process that has no children or has been killed. */
  lemma GiveUpDeserved(s: System, init: nat, steps: seq<Step>, p: nat, k: nat)
    requires Start(s, init) && Run(s, init, steps)
    requires var e := After(s, init, steps); Enabled(e, init, GiveUp(p)) && !e.procs[p].killed && k < |e.procs|
    ensures After(s, init, steps).procs[k].parent != Some(p)
  {
    hide SleepOk;
    ReachableInv(s, init, steps);
    assert ProcOk(After(s, init, steps), init, p);
  }

  // ---- a run ----

  /** Some run leads from s to e. */
  ghost predicate Leads(s: System, init: nat, e: System)
  {
    exists steps :: Run(s, init, steps) && After(s, init, steps) == e
  }

  lemma LeadsOn(s: System, init: nat, t: Step, m: System, e: System)
    requires Enabled(s, init, t) && Take(s, init, t) == m && Leads(m, init, e)
    ensures Leads(s, init, e)
  {
    var steps :| Run(m, init, steps) && After(m, init, steps) == e;
    assert ([t] + steps)[1..] == steps;
    assert Run(s, init, [t] + steps) && After(s, init, [t] + steps) == e;
  }

  /** Two processes, init and its child. */
  function Two(init: Proc, child: Proc, wait: Option<nat>, nextpid: nat): System
  {
    System([init, child], wait, nextpid, [], [])
  }

  const INIT := Proc(RUNNING, 1, None, Nowhere, false, false, User)
  const CHILD := Proc(RUNNABLE, 2, Some(0), Nowhere, false, false, User)
  const SLEEPER := Two(INIT.(state := SLEEPING, chan := OnProc(0), locked := true, pc := Asleep), CHILD, None, 3)

  lemma FallsAsleep()
    ensures Leads(Two(INIT.(pc := WaitScan(2, true)), CHILD, Some(0), 3), 0, SLEEPER)
  {
    hide Leads;
    var a := Two(INIT.(locked := true, pc := SleepLocked), CHILD, Some(0), 3);
    var b := Two(INIT.(locked := true, pc := SleepReleased), CHILD, None, 3);
    LeadsNowhere(SLEEPER);
    LeadsOn(b, 0, GoToSleep(0), SLEEPER, SLEEPER);
    LeadsOn(a, 0, ReleaseWait(0), b, SLEEPER);
    LeadsOn(Two(INIT.(pc := WaitScan(2, true)), CHILD, Some(0), 3), 0, LockSelf(0), a, SLEEPER);
  }

  lemma LeadsNowhere(s: System)
    ensures Leads(s, 0, s)
  {
    assert Run(s, 0, []) && After(s, 0, []) == s;
  }

  lemma Waits()
    ensures Leads(Two(INIT, CHILD, None, 3), 0, SLEEPER)
  {
    hide Leads;
    FallsAsleep();
    var a := Two(INIT.(pc := WaitScan(0, false)), CHILD, Some(0), 3);
    var b := Two(INIT.(pc := WaitScan(1, false)), CHILD, Some(0), 3);
    var c := Two(INIT.(pc := WaitScan(2, true)), CHILD, Some(0), 3);
    LeadsOn(b, 0, WaitTurn(0), c, SLEEPER);
    LeadsOn(a, 0, WaitTurn(0), b, SLEEPER);
    LeadsOn(Two(INIT, CHILD, None, 3), 0, Wait(0), a, SLEEPER);
  }

  lemma Forks()
    ensures Leads(Two(INIT, BLANK, None, 2), 0, SLEEPER)
  {
    hide Leads;
    Waits();
    var a := Two(INIT.(pc := ForkMade(1)), CHILD.(state := USED, parent := None), None, 3);
    var b := Two(INIT.(pc := ForkParented(1)), CHILD.(state := USED), None, 3);
    LeadsOn(b, 0, Launch(0), Two(INIT, CHILD, None, 3), SLEEPER);
    LeadsOn(a, 0, SetParent(0), b, SLEEPER);
    LeadsOn(Two(INIT, BLANK, None, 2), 0, Fork(0, 1), a, SLEEPER);
  }

  /** Init forks a child and goes to sleep in wait(): the theorems above speak of states that are reached. */
  lemma SleepHappens() returns (s: System)
    ensures Start(s, 0) && Leads(s, 0, SLEEPER)
  {
    hide Leads;
    Forks();
    s := Two(BLANK.(state := RUNNABLE, pid := 1), BLANK, None, 2);
    var a := Two(INIT.(locked := true), BLANK, None, 2);
    LeadsOn(a, 0, Resume(0), Two(INIT, BLANK, None, 2), SLEEPER);
    LeadsOn(s, 0, Schedule(0), a, SLEEPER);
  }
}
