/**
 What the calls of the SMP scheduler achieve when nothing comes in between: a yield switches
 to any queued task, a notify queues a waiter, an exit retires its task and the garbage
 collector frees it, a migration ends on a CPU of the mask.
 */
module SmpCalls {
  import opened Common
  import opened SmpInvariant
  import opened SmpKernel

  /** Task `t` is Running on CPU `c`, which executes its code on its stack. */
  ghost predicate Executes(s: Kernel, c: Cpu, t: Task) {
    c < |s.cpu| && s.cpu[c].current == t && s.cpu[c].phase.Run? && InState(s, t, Running) && IsOnCpu(s, t)
  }

  /** Only CPU `c` and the tasks `t` and `u` are not as before. */
  ghost predicate OnlyTouches(s: Kernel, s': Kernel, c: Cpu, t: Task, u: Task) {
    && |s'.cpu| == |s.cpu| && s'.waiting == s.waiting && s'.handles == s.handles && s'.freed == s.freed
    && (forall d: Cpu :: d < |s.cpu| && d != c ==> s'.cpu[d] == s.cpu[d])
    && (forall x: Task :: x != t && x != u ==> (x in s'.tasks <==> x in s.tasks))
    && (forall x: Task :: x != t && x != u && x in s.tasks ==> s'.tasks[x] == s.tasks[x])
  }

  /** The steps of `switch_to`, from the choice of the next task on. */
  ghost predicate SwitchRun(s: Kernel, c: Cpu, s1: Kernel, s2: Kernel, s3: Kernel, s4: Kernel) {
    && CanSetRunning(s, c) && s1 == DoSetRunning(s, c) && CanSetOnCpu(s1, c) && s2 == DoSetOnCpu(s1, c)
    && CanSwapCurrent(s2, c) && s3 == DoSwapCurrent(s2, c) && CanClearPrev(s3, c) && s4 == DoClearPrev(s3, c)
  }

  /** From `resched` with the choice of `u` to the code of `u`. */
  lemma SwitchCompletes(s: Kernel, c: Cpu, t: Task, u: Task)
    returns (s1: Kernel, s2: Kernel, s3: Kernel, s4: Kernel)
    requires c < |s.cpu| && s.cpu[c].current == t && s.cpu[c].phase == Switch(u) && t != u
    requires t in s.tasks && u in s.tasks
    ensures SwitchRun(s, c, s1, s2, s3, s4)
    ensures Executes(s4, c, u) && !IsOnCpu(s4, t) && s4.tasks[t].state == s.tasks[t].state
    ensures s4.cpu[c] == s.cpu[c].(current := u, phase := Run) && OnlyTouches(s, s4, c, t, u)
    ensures s4.closure == s.closure && s4.moving == s.moving && s4.unsettled == s.unsettled
    ensures s4.tasks[t].cpumask == s.tasks[t].cpumask
  {
    s1 := DoSetRunning(s, c);
    s2 := DoSetOnCpu(s1, c);
    s3 := DoSwapCurrent(s2, c);
    s4 := DoClearPrev(s3, c);
  }

  /** The current task offers itself, and task `u` of the queue is chosen. */
  lemma YieldPicks(s: Kernel, c: Cpu, u: Task) returns (s1: Kernel, s2: Kernel, s3: Kernel)
    requires c < |s.cpu| && s.cpu[c].phase.Run? && s.cpu[c].current != s.cpu[c].idle
    requires InState(s, s.cpu[c].current, Running) && u in s.cpu[c].ready && u != s.cpu[c].current
    ensures CanYield(s, c) && s1 == DoYield(s, c) && CanPutBack(s1, c) && s2 == DoPutBack(s1, c)
    ensures CanPick(s2, c, u) && s3 == DoPick(s2, c, u)
    ensures var t, k := s.cpu[c].current, s.cpu[c];
      && s3.cpu == s.cpu[c := k.(phase := Switch(u), ready := k.ready + multiset{t} - multiset{u})]
      && s3.tasks == s.tasks[t := s.tasks[t].(state := Ready)] && s3 == s.(cpu := s3.cpu, tasks := s3.tasks)
  {
    s1 := DoYield(s, c);
    s2 := DoPutBack(s1, c);
    s3 := DoPick(s2, c, u);
  }

  lemma QueuedElsewhere(s: Kernel, c: Cpu, u: Task, f: map<Task, Place>, b: map<Task, Cpu>)
    requires Inv(s, f, b) && c < |s.cpu| && s.cpu[c].phase.Run? && s.cpu[c].current != s.cpu[c].idle
    requires u in s.cpu[c].ready
    ensures u in s.tasks && u != s.cpu[c].current && InState(s, s.cpu[c].current, Running)
  {
    KnownCpu(s, f, b, c);
    Known(s, f, b, s.cpu[c].current);
    Known(s, f, b, u);
  }

  /** Task `u` executes instead of `t`, which is ready in the queue. */
  ghost predicate Swapped(s: Kernel, s': Kernel, c: Cpu, t: Task, u: Task) {
    && Executes(s', c, u) && t != u && InState(s', t, Ready) && !IsOnCpu(s', t) && c < |s.cpu|
    && s'.cpu[c].ready == s.cpu[c].ready + multiset{t} - multiset{u} && t in s'.cpu[c].ready
    && OnlyTouches(s, s', c, t, u)
  }

  lemma SwappedBy(s: Kernel, m: Kernel, s': Kernel, c: Cpu, t: Task, u: Task)
    requires c < |s.cpu| && t in s.tasks && u in s.tasks && t != u && t in m.tasks
    requires m.cpu == s.cpu[c := s.cpu[c].(phase := Switch(u), ready := s.cpu[c].ready + multiset{t} - multiset{u})]
    requires m.tasks == s.tasks[t := s.tasks[t].(state := Ready)] && m == s.(cpu := m.cpu, tasks := m.tasks)
    requires Executes(s', c, u) && !IsOnCpu(s', t) && OnlyTouches(m, s', c, t, u) && InState(s', t, Ready)
    requires s'.cpu[c] == m.cpu[c].(current := u, phase := Run)
    ensures Swapped(s, s', c, t, u)
  {
  }

  /** `yield_now` with task `u` in the queue of this CPU: the current task can make room for `u` and stays queued. */
  lemma YieldSwitches(s: Kernel, c: Cpu, u: Task, f: map<Task, Place>, b: map<Task, Cpu>)
    returns (s1: Kernel, s2: Kernel, s3: Kernel, s4: Kernel, s5: Kernel, s6: Kernel, s7: Kernel)
    requires Inv(s, f, b) && c < |s.cpu| && s.cpu[c].phase.Run? && s.cpu[c].current != s.cpu[c].idle
    requires u in s.cpu[c].ready
    ensures CanYield(s, c) && s1 == DoYield(s, c) && CanPutBack(s1, c) && s2 == DoPutBack(s1, c)
    ensures CanPick(s2, c, u) && s3 == DoPick(s2, c, u)
    ensures SwitchRun(s3, c, s4, s5, s6, s7)
    ensures Swapped(s, s7, c, s.cpu[c].current, u)
  {
    QueuedElsewhere(s, c, u, f, b);
    s1, s2, s3 := YieldPicks(s, c, u);
    s4, s5, s6, s7 := SwitchCompletes(s3, c, s.cpu[c].current, u);
    SwappedBy(s, s3, s7, c, s.cpu[c].current, u);
  }

  /** The task that yields can be picked again at once: then it goes on, and the queue is as before. */
  lemma YieldStays(s: Kernel, c: Cpu, f: map<Task, Place>, b: map<Task, Cpu>)
    returns (s1: Kernel, s2: Kernel, s3: Kernel, s4: Kernel)
    requires Inv(s, f, b) && c < |s.cpu| && s.cpu[c].phase.Run? && s.cpu[c].current != s.cpu[c].idle
    ensures var t := s.cpu[c].current;
      && CanYield(s, c) && s1 == DoYield(s, c) && CanPutBack(s1, c) && s2 == DoPutBack(s1, c)
      && CanPick(s2, c, t) && s3 == DoPick(s2, c, t) && CanStay(s3, c) && s4 == DoStay(s3, c)
    ensures |s4.cpu| == |s.cpu| && Executes(s4, c, s.cpu[c].current) && s4.cpu[c].ready == s.cpu[c].ready
  {
    KnownCpu(s, f, b, c);
    Known(s, f, b, s.cpu[c].current);
    s1 := DoYield(s, c);
    s2 := DoPutBack(s1, c);
    s3 := DoPick(s2, c, s.cpu[c].current);
    s4 := DoStay(s3, c);
  }

  lemma IdlePicks(s: Kernel, c: Cpu, u: Task) returns (s1: Kernel, s2: Kernel)
    requires c < |s.cpu| && s.cpu[c].phase.Run? && s.cpu[c].current == s.cpu[c].idle && u in s.cpu[c].ready
    requires u in s.tasks && s.cpu[c].idle in s.tasks && InState(s, s.cpu[c].idle, Running)
    ensures CanYield(s, c) && s1 == DoYield(s, c) && CanPick(s1, c, u) && s2 == DoPick(s1, c, u)
    ensures s2.cpu == s.cpu[c := s.cpu[c].(phase := Switch(u), ready := s.cpu[c].ready - multiset{u})]
    ensures s2.tasks.Keys == s.tasks.Keys
  {
    s1 := DoYield(s, c);
    s2 := DoPick(s1, c, u);
  }

  lemma IdleRuns(s: Kernel, c: Cpu, u: Task, f: map<Task, Place>, b: map<Task, Cpu>)
    requires Inv(s, f, b) && c < |s.cpu| && s.cpu[c].phase.Run? && s.cpu[c].current == s.cpu[c].idle
    requires u in s.cpu[c].ready
    ensures u in s.tasks && u != s.cpu[c].idle && InState(s, s.cpu[c].idle, Running)
  {
    KnownCpu(s, f, b, c);
    Known(s, f, b, s.cpu[c].idle);
    Known(s, f, b, u);
  }

  /** The idle task gives way to any queued task, and is not queued itself. */
  lemma IdleGivesWay(s: Kernel, c: Cpu, u: Task, f: map<Task, Place>, b: map<Task, Cpu>)
    returns (s1: Kernel, s2: Kernel, s3: Kernel, s4: Kernel, s5: Kernel, s6: Kernel)
    requires Inv(s, f, b) && c < |s.cpu| && s.cpu[c].phase.Run? && s.cpu[c].current == s.cpu[c].idle
    requires u in s.cpu[c].ready
    ensures CanYield(s, c) && s1 == DoYield(s, c) && CanPick(s1, c, u) && s2 == DoPick(s1, c, u)
    ensures SwitchRun(s2, c, s3, s4, s5, s6)
    ensures |s6.cpu| == |s.cpu| && Executes(s6, c, u) && s6.cpu[c].ready == s.cpu[c].ready - multiset{u}
  {
    IdleRuns(s, c, u, f, b);
    s1, s2 := IdlePicks(s, c, u);
    s3, s4, s5, s6 := SwitchCompletes(s2, c, s.cpu[c].idle, u);
  }

  lemma IdleIsThere(s: Kernel, c: Cpu, f: map<Task, Place>, b: map<Task, Cpu>)
    requires Inv(s, f, b) && c < |s.cpu|
    ensures s.cpu[c].current in s.tasks && s.cpu[c].idle in s.tasks
  {
    KnownCpu(s, f, b, c);
    Known(s, f, b, s.cpu[c].current);
    Known(s, f, b, s.cpu[c].idle);
  }

  /** A CPU whose task has left switches to its idle task just if its queue is empty. */
  lemma IdleTakesOver(s: Kernel, c: Cpu, f: map<Task, Place>, b: map<Task, Cpu>)
    returns (s1: Kernel, s2: Kernel, s3: Kernel, s4: Kernel, s5: Kernel)
    requires Inv(s, f, b) && c < |s.cpu| && s.cpu[c].phase.Resched? && s.cpu[c].current != s.cpu[c].idle
    ensures CanPickIdle(s, c) <==> s.cpu[c].ready == multiset{}
    ensures s.cpu[c].ready == multiset{} ==>
      CanPickIdle(s, c) && s1 == DoPickIdle(s, c) && SwitchRun(s1, c, s2, s3, s4, s5) && Executes(s5, c, s.cpu[c].idle)
  {
    IdleIsThere(s, c, f, b);
    s1, s2, s3, s4, s5 := s, s, s, s, s;
    if s.cpu[c].ready == multiset{} {
      s1 := DoPickIdle(s, c);
      s2, s3, s4, s5 := SwitchCompletes(s1, c, s.cpu[c].current, s.cpu[c].idle);
    }
  }

  /** `notify_one`, of a waiter that no CPU is still leaving: it is Ready, out of the wait queue and queued. */
  lemma NotifyQueues(s: Kernel, c: Cpu, w: WaitQueue, t: Task, target: Cpu, f: map<Task, Place>, b: map<Task, Cpu>)
    returns (s1: Kernel, s2: Kernel, s3: Kernel)
    requires Inv(s, f, b) && CanNotify(s, c, w, t, target) && !IsOnCpu(s, t)
    ensures s1 == DoNotify(s, c, w, t, target) && CanWakeCas(s1, c) && s2 == DoWakeCas(s1, c)
    ensures CanSpinDone(s2, c) && s3 == DoSpinDone(s2, c)
    ensures target < |s.cpu| && s3.cpu[target].ready == s.cpu[target].ready + multiset{t} && InState(s3, t, Ready)
    ensures t !in Waiters(s3, w) && Unlocked(s3, w) && target in s.tasks[t].cpumask
    ensures s3.cpu[c].phase == if s.cpu[c].phase.ExitGc? then Resched else s.cpu[c].phase
  {
    Known(s, f, b, t);
    s1 := DoNotify(s, c, w, t, target);
    s2 := DoWakeCas(s1, c);
    s3 := DoSpinDone(s2, c);
  }

  /** `exit` of a task without joiners, while the GC task does not wait: Exited, in the exited list, out of the CPU. */
  lemma ExitRetires(s: Kernel, c: Cpu) returns (s1: Kernel, s2: Kernel, s3: Kernel, s4: Kernel)
    requires CanExit(s, c) && s.cpu[c].current in s.tasks
    requires Waiters(s, Join(s.cpu[c].current)) == multiset{} && Waiters(s, Gc(c)) == multiset{}
    ensures s1 == DoExit(s, c) && CanJoinersDone(s1, c) && s2 == DoJoinersDone(s1, c)
    ensures CanPushExited(s2, c) && s3 == DoPushExited(s2, c) && CanGcNotWaiting(s3, c) && s4 == DoGcNotWaiting(s3, c)
    ensures var t := s.cpu[c].current;
      && InState(s4, t, Exited) && s4.cpu[c].exited == s.cpu[c].exited + multiset{t} && s4.cpu[c].phase.Resched?
      && s4.cpu[c].ready == s.cpu[c].ready && OnlyTouches(s, s4, c, t, t)
  {
    s1 := DoExit(s, c);
    s2 := DoJoinersDone(s1, c);
    s3 := DoPushExited(s2, c);
    s4 := DoGcNotWaiting(s3, c);
  }

  /** Somebody beside the exited list of CPU `c` refers to `t`. */
  ghost predicate HeldElsewhere(s: Kernel, c: Cpu, t: Task) {
    exists r :: r != ExitedRef(c) && Holds(s, r, t)
  }

  lemma SameHolders(s: Kernel, c: Cpu, t: Task, r: Ref, f: map<Task, Place>, b: map<Task, Cpu>)
    requires Inv(s, f, b) && CanGcTake(s, c, t) && r != ExitedRef(c) && r != GcRef(c)
    ensures Holds(s, r, t) <==> Holds(DoGcTake(s, c, t), r, t)
  {
  }

  /** The GC task takes an exited task: it is freed just if nobody else refers to it, and otherwise put back. */
  lemma GcFreesUnheld(s: Kernel, c: Cpu, t: Task, f: map<Task, Place>, b: map<Task, Cpu>)
    returns (s1: Kernel, s2: Kernel)
    requires Inv(s, f, b) && CanGcTake(s, c, t)
    ensures CanGcTake(s, c, t) && s1 == DoGcTake(s, c, t)
    ensures HeldElsewhere(s, c, t) ==> CanGcReturn(s1, c) && s2 == DoGcReturn(s1, c) && s2 == s && !CanGcDrop(s1, c)
    ensures !HeldElsewhere(s, c, t) ==>
      CanGcDrop(s1, c) && s2 == DoGcDrop(s1, c) && t in s2.freed && !CanGcReturn(s1, c)
    ensures !HeldElsewhere(s, c, t) ==> s2.cpu[c].exited == s.cpu[c].exited - multiset{t}
  {
    Known(s, f, b, t);
    s1 := DoGcTake(s, c, t);
    forall r: Ref | r != ExitedRef(c) && r != GcRef(c)
      ensures Holds(s, r, t) <==> Holds(s1, r, t)
    {
      SameHolders(s, c, t, r, f, b);
    }
    assert !Holds(s, GcRef(c), t) && !Holds(s1, ExitedRef(c), t);
    if HeldElsewhere(s, c, t) {
      s2 := DoGcReturn(s1, c);
      assert s2.cpu[c] == s.cpu[c] && s2.cpu == s.cpu;
    } else {
      s2 := DoGcDrop(s1, c);
    }
  }

  lemma MigrationStarts(s: Kernel, c: Cpu, m: Task, f: map<Task, Place>, b: map<Task, Cpu>) returns (s1: Kernel)
    requires Inv(s, f, b) && CanStartMigration(s, c, m)
    ensures s1 == DoStartMigration(s, c, m)
    ensures var t := s.cpu[c].current;
      && t in s.tasks && t != m && t in s1.tasks && m in s1.tasks && InState(s1, t, Ready)
      && s1.tasks[t].cpumask == s.tasks[t].cpumask && s.tasks[t].cpumask <= s.fullMask && Shape(s)
      && s1.cpu == s.cpu[c := s.cpu[c].(phase := Switch(m))] && s1.closure == s.closure[m := t]
      && t in s1.moving && t !in s1.unsettled
  {
    KnownCpu(s, f, b, c);
    Known(s, f, b, s.cpu[c].current);
    s1 := DoStartMigration(s, c, m);
  }

  lemma MigrationEnters(s: Kernel, c: Cpu, m: Task, t: Task, target: Cpu) returns (s': Kernel)
    requires Executes(s, c, m) && m in s.closure && s.closure[m] == t && t in s.tasks
    requires target in s.tasks[t].cpumask && target < |s.cpu|
    ensures CanMigrateEntry(s, c, target) && s' == DoMigrateEntry(s, c, target)
    ensures |s'.cpu| == |s.cpu| && t in s'.cpu[target].ready
    ensures s'.tasks == s.tasks && s'.moving == s.moving && s'.unsettled == s.unsettled && m !in s'.closure
    ensures Executes(s', c, m)
  {
    s' := DoMigrateEntry(s, c, target);
  }

  /** A task on its way out of CPU `c` is off its stack there and queued on a CPU of its mask. */
  lemma MigrationQueues(s: Kernel, c: Cpu, m: Task, target: Cpu, f: map<Task, Place>, b: map<Task, Cpu>)
    returns (s1: Kernel, s2: Kernel, s3: Kernel, s4: Kernel, s5: Kernel, s6: Kernel)
    requires Inv(s, f, b) && CanStartMigration(s, c, m)
    requires s.cpu[c].current in s.tasks && target in s.tasks[s.cpu[c].current].cpumask
    ensures s1 == DoStartMigration(s, c, m) && SwitchRun(s1, c, s2, s3, s4, s5)
    ensures CanMigrateEntry(s5, c, target) && s6 == DoMigrateEntry(s5, c, target)
    ensures var t := s.cpu[c].current;
      && target < |s6.cpu| && t in s6.cpu[target].ready && InState(s6, t, Ready) && !IsOnCpu(s6, t)
      && t in s6.moving && t !in s6.unsettled && Executes(s6, c, m) && m !in s6.closure
  {
    var t := s.cpu[c].current;
    s1 := MigrationStarts(s, c, m, f, b);
    s2, s3, s4, s5 := SwitchCompletes(s1, c, t, m);
    s6 := MigrationEnters(s5, c, m, t, target);
  }

  /** What the code of a task that is neither idle nor in the middle of a migration can do next. */
  lemma RunningTaskMay(s: Kernel, c: Cpu, w: WaitQueue, u: Task, mask: set<Cpu>, target: Cpu)
    requires Shape(s) && c < |s.cpu| && s.cpu[c].phase.Run? && s.cpu[c].current != s.cpu[c].idle
    requires var t := s.cpu[c].current; t !in s.unsettled && t !in s.moving && t !in s.closure
    ensures CanYield(s, c) && CanTakeHandle(s, c) && (u in s.handles ==> CanDropHandle(s, c, u))
    ensures Unlocked(s, w) ==> CanBlock(s, c, w)
    ensures Unlocked(s, w) && u in Waiters(s, w) && u in s.tasks && target in s.tasks[u].cpumask ==>
      CanNotify(s, c, w, u, target)
    ensures target in mask && mask <= s.fullMask && u !in s.tasks ==> CanSpawn(s, c, u, mask, target)
    ensures s.cpu[c].current != s.cpu[c].gc && mask != {} && mask <= s.fullMask ==> CanSetAffinity(s, c, mask)
    ensures s.cpu[c].current != s.cpu[c].gc && s.cpu[c].current != s.main ==> CanExit(s, c)
    ensures s.cpu[c].current == s.cpu[c].gc && s.cpu[c].gcHand.None? && u in s.cpu[c].exited ==> CanGcTake(s, c, u)
  {
  }

  /** A task that waits for its migration can start it, with any new task as its helper. */
  lemma UnsettledTaskMay(s: Kernel, c: Cpu, m: Task)
    requires c < |s.cpu| && s.cpu[c].phase.Run? && s.cpu[c].current in s.unsettled && m !in s.tasks
    ensures CanStartMigration(s, c, m) && CanYield(s, c) && !Free(s, c)
  {
  }
}
