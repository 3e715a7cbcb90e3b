/**
 The SMP task scheduler as a transition system: one step per atomic action or lock
 section, sequentially consistent atomics, every interleaving of every CPU.
 */
module SmpKernel {
  import opened Common

  type Task = nat
  type Cpu = nat

  datatype TaskState = Running | Ready | Blocked | Exited

  datatype TaskInner = TaskInner(state: TaskState, cpumask: set<Cpu>, onCpu: bool, inWaitQueue: bool)

  /** Wait queues: those of kernel objects, the joiners of a task, the GC task of a CPU. */
  datatype WaitQueue = Object(id: nat) | Join(task: Task) | Gc(cpu: Cpu)

  /** Where a CPU continues after it has unblocked a task. */
  datatype Then = ToRun | ToExitLoop | ToResched

  /**
   What a CPU is doing. Everything but `Run` happens with IRQs and preemption off, so
   this is the position of the CPU in the scheduler code.
   */
  datatype Phase =
    | Run                                                           // code of the current task
    | Put                                                           // current CASed to Ready, not yet queued
    | Resched                                                       // about to pick the next task
    | Switch(next: Task)                                            // picked, must be Ready
    | Claim(next: Task)                                             // set Running, `on_cpu` not yet set
    | Swap(next: Task)                                              // `on_cpu` set, about to switch context
    | Clear(prev: Task)                                             // on the new stack, `prev` still `on_cpu`
    | Wake(task: Task, target: Cpu, lock: WaitQueue, cont: Then)    // popped from `lock`, before the CAS
    | Spin(task: Task, target: Cpu, lock: WaitQueue, cont: Then)    // CASed to Ready, waits for `on_cpu`
    | ExitLoop                                                      // Exited, waking the joiners
    | ExitPush                                                      // about to enter the exited list
    | ExitGc                                                        // about to wake the GC task

  /** The per-CPU variables. Queues are multisets: whatever order a scheduler keeps. */
  datatype PerCpu = PerCpu(
    idle: Task,                             // IDLE_TASK
    gc: Task,                               // the GC task pinned to this CPU
    current: Task,
    phase: Phase,
    ready: multiset<Task>,                  // contents of RUN_QUEUE
    exited: multiset<Task>,                 // EXITED_TASKS
    gcHand: Option<Task>                    // popped by the GC task, not yet dropped or pushed back
  )

  datatype Kernel = Kernel(
    cpu: seq<PerCpu>,
    fullMask: set<Cpu>,
    main: Task,                             // its exit powers the machine off and is not a step
    tasks: map<Task, TaskInner>,            // every task ever created
    waiting: map<WaitQueue, multiset<Task>>,
    closure: map<Task, Task>,               // migration task -> task it will migrate
    handles: multiset<Task>,                // strong references that other code holds
    unsettled: set<Task>,                   // in set_current_affinity, before the migration
    moving: set<Task>,                      // in set_current_affinity, handed to the migration task
    freed: set<Task>
  )

  ghost predicate Shape(s: Kernel) {
    1 <= |s.cpu| && forall c: Cpu :: c in s.fullMask <==> c < |s.cpu|
  }

  // ---------------------------------------------------------------- fields

  function Waiters(s: Kernel, w: WaitQueue): multiset<Task> {
    if w in s.waiting then s.waiting[w] else multiset{}
  }

  function SetWaiters(s: Kernel, w: WaitQueue, m: multiset<Task>): (s': Kernel)
    ensures forall v :: Waiters(s', v) == if v == w then m else Waiters(s, v)
  {
    s.(waiting := s.waiting[w := m])
  }

  function SetCpu(s: Kernel, c: Cpu, p: PerCpu): Kernel
    requires c < |s.cpu|
  {
    s.(cpu := s.cpu[c := p])
  }

  function SetPhase(s: Kernel, c: Cpu, p: Phase): Kernel
    requires c < |s.cpu|
  {
    SetCpu(s, c, s.cpu[c].(phase := p))
  }

  function Enqueue(s: Kernel, c: Cpu, t: Task): Kernel
    requires c < |s.cpu|
  {
    SetCpu(s, c, s.cpu[c].(ready := s.cpu[c].ready + multiset{t}))
  }

  function NewTask(mask: set<Cpu>): TaskInner {
    TaskInner(Ready, mask, false, false)
  }

  predicate InState(s: Kernel, t: Task, st: TaskState) {
    t in s.tasks && s.tasks[t].state == st
  }

  predicate IsOnCpu(s: Kernel, t: Task) {
    t in s.tasks && s.tasks[t].onCpu
  }

  function SetState(s: Kernel, t: Task, st: TaskState): Kernel {
    if t in s.tasks then s.(tasks := s.tasks[t := s.tasks[t].(state := st)]) else s
  }

  function SetOnCpuFlag(s: Kernel, t: Task, v: bool): Kernel {
    if t in s.tasks then s.(tasks := s.tasks[t := s.tasks[t].(onCpu := v)]) else s
  }

  function SetBlocked(s: Kernel, t: Task): Kernel {
    if t in s.tasks then s.(tasks := s.tasks[t := s.tasks[t].(state := Blocked, inWaitQueue := true)]) else s
  }

  function SetInWaitQueue(s: Kernel, t: Task, v: bool): Kernel {
    if t in s.tasks then s.(tasks := s.tasks[t := s.tasks[t].(inWaitQueue := v)]) else s
  }

  function SetMask(s: Kernel, t: Task, m: set<Cpu>): Kernel {
    if t in s.tasks then s.(tasks := s.tasks[t := s.tasks[t].(cpumask := m)]) else s
  }

  // ---------------------------------------------------------------- strong references

  datatype Ref =
    | CurrentRef(cpu: Cpu) | ReadyRef(cpu: Cpu) | WaitRef(queue: WaitQueue) | WakerRef(cpu: Cpu) | NextRef(cpu: Cpu)
    | PutRef(cpu: Cpu) | ClosureRef(owner: Task) | ExitedRef(cpu: Cpu) | GcRef(cpu: Cpu) | IdleRef(cpu: Cpu) | Handle

  function NextOf(p: Phase): Option<Task> {
    if p.Switch? || p.Claim? || p.Swap? then Some(p.next) else None
  }

  function HandOf(p: Phase): Option<Task> {
    if p.Wake? || p.Spin? then Some(p.task) else None
  }

  /** The reference `r` exists and keeps task `t` alive. */
  ghost predicate Holds(s: Kernel, r: Ref, t: Task) {
    match r
    case CurrentRef(c) => c < |s.cpu| && s.cpu[c].current == t
    case ReadyRef(c) => c < |s.cpu| && t in s.cpu[c].ready
    case WaitRef(w) => t in Waiters(s, w)
    case WakerRef(c) => c < |s.cpu| && HandOf(s.cpu[c].phase) == Some(t)
    case NextRef(c) => c < |s.cpu| && NextOf(s.cpu[c].phase) == Some(t)
    case PutRef(c) => c < |s.cpu| && s.cpu[c].phase.Put? && s.cpu[c].current == t
    case ClosureRef(m) => m in s.closure && s.closure[m] == t
    case ExitedRef(c) => c < |s.cpu| && t in s.cpu[c].exited
    case GcRef(c) => c < |s.cpu| && s.cpu[c].gcHand == Some(t)
    case IdleRef(c) => c < |s.cpu| && s.cpu[c].idle == t
    case Handle => t in s.handles
  }

  // ---------------------------------------------------------------- steps

  /** CPU `c` runs code of an ordinary task, at no special point of that code. */
  predicate Free(s: Kernel, c: Cpu) {
    && c < |s.cpu| && s.cpu[c].phase.Run?
    && var t := s.cpu[c].current;
    t != s.cpu[c].idle && t !in s.unsettled && t !in s.moving && t !in s.closure
  }

  predicate GcRuns(s: Kernel, c: Cpu) {
    Free(s, c) && s.cpu[c].current == s.cpu[c].gc
  }

  /** No CPU holds the lock of wait queue `w`. */
  ghost predicate Unlocked(s: Kernel, w: WaitQueue) {
    forall c :: 0 <= c < |s.cpu| && HandOf(s.cpu[c].phase).Some? ==> s.cpu[c].phase.lock != w
  }

  /** `notify_one` is called by running code, and on the two queues that an exit wakes. */
  predicate MayNotify(s: Kernel, c: Cpu, w: WaitQueue) {
    && c < |s.cpu|
    && match s.cpu[c].phase
       case Run => Free(s, c)
       case ExitLoop => w == Join(s.cpu[c].current)
       case ExitGc => w == Gc(c)
       case _ => false
  }

  function AfterNotify(p: Phase): Then {
    if p.ExitLoop? then ToExitLoop else if p.ExitGc? then ToResched else ToRun
  }

  function Continue(k: Then): Phase {
    match k
    case ToRun => Run
    case ToExitLoop => ExitLoop
    case ToResched => Resched
  }

  /** `yield_current` and `preempt_resched`: the current task offers itself to its own queue. */
  ghost predicate CanYield(s: Kernel, c: Cpu) {
    c < |s.cpu| && s.cpu[c].phase.Run?
  }

  ghost function DoYield(s: Kernel, c: Cpu): Kernel {
    if !CanYield(s, c) then s else
    var t := s.cpu[c].current;
    // transition_state(Running, Ready); an idle task is not put into the queue
    if InState(s, t, Running)
    then SetPhase(SetState(s, t, Ready), c, if t != s.cpu[c].idle then Put else Resched)
    else SetPhase(s, c, Resched)
  }

  ghost predicate CanPutBack(s: Kernel, c: Cpu) {
    c < |s.cpu| && s.cpu[c].phase.Put?
  }

  ghost function DoPutBack(s: Kernel, c: Cpu): Kernel {
    if !CanPutBack(s, c) then s else
    SetPhase(Enqueue(s, c, s.cpu[c].current), c, Resched)
  }

  /** `resched`: any queued task may be picked, the idle task only when none is queued. */
  ghost predicate CanPick(s: Kernel, c: Cpu, t: Task) {
    c < |s.cpu| && s.cpu[c].phase.Resched? && t in s.cpu[c].ready
  }

  ghost function DoPick(s: Kernel, c: Cpu, t: Task): Kernel {
    if !CanPick(s, c, t) then s else
    SetCpu(s, c, s.cpu[c].(ready := s.cpu[c].ready - multiset{t}, phase := Switch(t)))
  }

  ghost predicate CanPickIdle(s: Kernel, c: Cpu) {
    c < |s.cpu| && s.cpu[c].phase.Resched? && s.cpu[c].ready == multiset{}
  }

  ghost function DoPickIdle(s: Kernel, c: Cpu): Kernel {
    if !CanPickIdle(s, c) then s else
    SetPhase(s, c, Switch(s.cpu[c].idle))
  }

  /** `switch_to`: the next task becomes Running; if it is the current one, that is all. */
  ghost predicate CanSetRunning(s: Kernel, c: Cpu) {
    c < |s.cpu| && s.cpu[c].phase.Switch? && s.cpu[c].phase.next != s.cpu[c].current
  }

  ghost function DoSetRunning(s: Kernel, c: Cpu): Kernel {
    if !CanSetRunning(s, c) then s else
    SetPhase(SetState(s, s.cpu[c].phase.next, Running), c, Claim(s.cpu[c].phase.next))
  }

  ghost predicate CanStay(s: Kernel, c: Cpu) {
    c < |s.cpu| && s.cpu[c].phase.Switch? && s.cpu[c].phase.next == s.cpu[c].current
  }

  ghost function DoStay(s: Kernel, c: Cpu): Kernel {
    if !CanStay(s, c) then s else
    SetPhase(SetState(s, s.cpu[c].current, Running), c, Run)
  }

  ghost predicate CanSetOnCpu(s: Kernel, c: Cpu) {
    c < |s.cpu| && s.cpu[c].phase.Claim?
  }

  ghost function DoSetOnCpu(s: Kernel, c: Cpu): Kernel {
    if !CanSetOnCpu(s, c) then s else
    SetPhase(SetOnCpuFlag(s, s.cpu[c].phase.next, true), c, Swap(s.cpu[c].phase.next))
  }

  /** `PREV_TASK` is stored, the current pointer replaced and the context switched. */
  ghost predicate CanSwapCurrent(s: Kernel, c: Cpu) {
    c < |s.cpu| && s.cpu[c].phase.Swap?
  }

  ghost function DoSwapCurrent(s: Kernel, c: Cpu): Kernel {
    if !CanSwapCurrent(s, c) then s else
    SetCpu(s, c, s.cpu[c].(current := s.cpu[c].phase.next, phase := Clear(s.cpu[c].current)))
  }

  ghost predicate CanClearPrev(s: Kernel, c: Cpu) {
    c < |s.cpu| && s.cpu[c].phase.Clear?
  }

  ghost function DoClearPrev(s: Kernel, c: Cpu): Kernel {
    if !CanClearPrev(s, c) then s else
    SetPhase(SetOnCpuFlag(s, s.cpu[c].phase.prev, false), c, Run)
  }

  /** `blocked_resched`: one section under the lock of the wait queue. */
  ghost predicate CanBlock(s: Kernel, c: Cpu, w: WaitQueue) {
    c < |s.cpu| && Free(s, c) && Unlocked(s, w)
  }

  ghost function DoBlock(s: Kernel, c: Cpu, w: WaitQueue): Kernel {
    if !CanBlock(s, c, w) then s else
    var t := s.cpu[c].current;
    SetWaiters(SetPhase(SetBlocked(s, t), c, Resched), w, Waiters(s, w) + multiset{t})
  }

  /** `notify_one` and `notify_task` up to the choice of a run queue; the lock stays held. */
  ghost predicate CanNotify(s: Kernel, c: Cpu, w: WaitQueue, t: Task, target: Cpu) {
    c < |s.cpu| && MayNotify(s, c, w) && Unlocked(s, w) && t in Waiters(s, w)
    && t in s.tasks && target in s.tasks[t].cpumask
  }

  ghost function DoNotify(s: Kernel, c: Cpu, w: WaitQueue, t: Task, target: Cpu): Kernel {
    if !CanNotify(s, c, w, t, target) then s else
    var s' := SetPhase(SetInWaitQueue(s, t, false), c, Wake(t, target, w, AfterNotify(s.cpu[c].phase)));
    SetWaiters(s', w, Waiters(s, w) - multiset{t})
  }

  ghost predicate CanWakeCas(s: Kernel, c: Cpu) {
    c < |s.cpu| && s.cpu[c].phase.Wake?
  }

  ghost function DoWakeCas(s: Kernel, c: Cpu): Kernel {
    if !CanWakeCas(s, c) then s else
    var p := s.cpu[c].phase;
    if InState(s, p.task, Blocked)
    then SetPhase(SetState(s, p.task, Ready), c, Spin(p.task, p.target, p.lock, p.cont))
    else SetPhase(s, c, Continue(p.cont))
  }

  /** The spin on `on_cpu` ends and the task enters the chosen queue. */
  ghost predicate CanSpinDone(s: Kernel, c: Cpu) {
    c < |s.cpu| && s.cpu[c].phase.Spin? && !IsOnCpu(s, s.cpu[c].phase.task) && s.cpu[c].phase.target < |s.cpu|
  }

  ghost function DoSpinDone(s: Kernel, c: Cpu): Kernel {
    if !CanSpinDone(s, c) then s else
    SetPhase(Enqueue(s, s.cpu[c].phase.target, s.cpu[c].phase.task), c, Continue(s.cpu[c].phase.cont))
  }

  /** `exit_current` */
  ghost predicate CanExit(s: Kernel, c: Cpu) {
    c < |s.cpu| && Free(s, c) && s.cpu[c].current != s.cpu[c].gc && s.cpu[c].current != s.main
  }

  ghost function DoExit(s: Kernel, c: Cpu): Kernel {
    if !CanExit(s, c) then s else
    SetPhase(SetState(s, s.cpu[c].current, Exited), c, ExitLoop)
  }

  ghost predicate CanJoinersDone(s: Kernel, c: Cpu) {
    c < |s.cpu| && s.cpu[c].phase.ExitLoop? && Waiters(s, Join(s.cpu[c].current)) == multiset{}
  }

  ghost function DoJoinersDone(s: Kernel, c: Cpu): Kernel {
    if !CanJoinersDone(s, c) then s else
    SetPhase(s, c, ExitPush)
  }

  ghost predicate CanPushExited(s: Kernel, c: Cpu) {
    c < |s.cpu| && s.cpu[c].phase.ExitPush?
  }

  ghost function DoPushExited(s: Kernel, c: Cpu): Kernel {
    if !CanPushExited(s, c) then s else
    SetCpu(s, c, s.cpu[c].(exited := s.cpu[c].exited + multiset{s.cpu[c].current}, phase := ExitGc))
  }

  ghost predicate CanGcNotWaiting(s: Kernel, c: Cpu) {
    c < |s.cpu| && s.cpu[c].phase.ExitGc? && Waiters(s, Gc(c)) == multiset{}
  }

  ghost function DoGcNotWaiting(s: Kernel, c: Cpu): Kernel {
    if !CanGcNotWaiting(s, c) then s else
    SetPhase(s, c, Resched)
  }

  /** `gc_entry`: take one exited task, drop it if nobody else holds it, else push it back. */
  ghost predicate CanGcTake(s: Kernel, c: Cpu, t: Task) {
    c < |s.cpu| && GcRuns(s, c) && s.cpu[c].gcHand.None? && t in s.cpu[c].exited
  }

  ghost function DoGcTake(s: Kernel, c: Cpu, t: Task): Kernel {
    if !CanGcTake(s, c, t) then s else
    SetCpu(s, c, s.cpu[c].(exited := s.cpu[c].exited - multiset{t}, gcHand := Some(t)))
  }

  ghost predicate CanGcReturn(s: Kernel, c: Cpu) {
    c < |s.cpu| && GcRuns(s, c) && s.cpu[c].gcHand.Some?
    && exists r :: r != GcRef(c) && Holds(s, r, s.cpu[c].gcHand.value)
  }

  ghost function DoGcReturn(s: Kernel, c: Cpu): Kernel {
    if !CanGcReturn(s, c) then s else
    SetCpu(s, c, s.cpu[c].(exited := s.cpu[c].exited + multiset{s.cpu[c].gcHand.value}, gcHand := None))
  }

  ghost predicate CanGcDrop(s: Kernel, c: Cpu) {
    c < |s.cpu| && GcRuns(s, c) && s.cpu[c].gcHand.Some?
    && forall r :: Holds(s, r, s.cpu[c].gcHand.value) ==> r == GcRef(c)
  }

  ghost function DoGcDrop(s: Kernel, c: Cpu): Kernel {
    if !CanGcDrop(s, c) then s else
    SetCpu(s, c, s.cpu[c].(gcHand := None)).(freed := s.freed + {s.cpu[c].gcHand.value})
  }

  /** `set_current_affinity`: if this CPU is not in the new mask, a migration follows. */
  ghost predicate CanSetAffinity(s: Kernel, c: Cpu, mask: set<Cpu>) {
    c < |s.cpu| && Free(s, c) && s.cpu[c].current != s.cpu[c].gc && mask != {} && mask <= s.fullMask
  }

  ghost function DoSetAffinity(s: Kernel, c: Cpu, mask: set<Cpu>): Kernel {
    if !CanSetAffinity(s, c, mask) then s else
    var t := s.cpu[c].current;
    SetMask(s, t, mask).(unsettled := if c in mask then s.unsettled else s.unsettled + {t})
  }

  /** `migrate_current`: switch to a new migration task that owns the current one. */
  ghost predicate CanStartMigration(s: Kernel, c: Cpu, m: Task) {
    c < |s.cpu| && s.cpu[c].phase.Run? && s.cpu[c].current in s.unsettled && m !in s.tasks
  }

  ghost function DoStartMigration(s: Kernel, c: Cpu, m: Task): Kernel {
    if !CanStartMigration(s, c, m) then s else
    var t := s.cpu[c].current;
    var s' := SetPhase(SetState(s, t, Ready), c, Switch(m));
    s'.(tasks := s'.tasks[m := NewTask(s.fullMask)], closure := s.closure[m := t],
        unsettled := s.unsettled - {t}, moving := s.moving + {t})
  }

  /** `migrate_entry`, run by the migration task. */
  ghost predicate CanMigrateEntry(s: Kernel, c: Cpu, target: Cpu) {
    c < |s.cpu| && s.cpu[c].phase.Run? && s.cpu[c].current in s.closure && s.closure[s.cpu[c].current] in s.tasks
    && target in s.tasks[s.closure[s.cpu[c].current]].cpumask && target < |s.cpu|
  }

  ghost function DoMigrateEntry(s: Kernel, c: Cpu, target: Cpu): Kernel {
    if !CanMigrateEntry(s, c, target) then s else
    Enqueue(s, target, s.closure[s.cpu[c].current]).(closure := s.closure - {s.cpu[c].current})
  }

  /** The migrated task runs again, at the assertion that the migration has succeeded. */
  ghost predicate CanMigrationDone(s: Kernel, c: Cpu) {
    c < |s.cpu| && s.cpu[c].phase.Run? && s.cpu[c].current in s.moving
  }

  ghost function DoMigrationDone(s: Kernel, c: Cpu): Kernel {
    if !CanMigrationDone(s, c) then s else
    s.(moving := s.moving - {s.cpu[c].current})
  }

  /** `spawn_task`, of a task with any mask. */
  ghost predicate CanSpawn(s: Kernel, c: Cpu, t: Task, mask: set<Cpu>, target: Cpu) {
    c < |s.cpu| && Free(s, c) && t !in s.tasks && mask <= s.fullMask && target in mask && target < |s.cpu|
  }

  ghost function DoSpawn(s: Kernel, c: Cpu, t: Task, mask: set<Cpu>, target: Cpu): Kernel {
    if !CanSpawn(s, c, t, mask, target) then s else
    Enqueue(s, target, t).(tasks := s.tasks[t := NewTask(mask)], handles := s.handles + multiset{t})
  }

  /** `current().clone()`: running code takes a reference to its own task, and may hand it on. */
  ghost predicate CanTakeHandle(s: Kernel, c: Cpu) {
    c < |s.cpu| && Free(s, c)
  }

  ghost function DoTakeHandle(s: Kernel, c: Cpu): Kernel {
    if !CanTakeHandle(s, c) then s else
    s.(handles := s.handles + multiset{s.cpu[c].current})
  }

  ghost predicate CanDropHandle(s: Kernel, c: Cpu, t: Task) {
    c < |s.cpu| && Free(s, c) && t in s.handles
  }

  ghost function DoDropHandle(s: Kernel, c: Cpu, t: Task): Kernel {
    if !CanDropHandle(s, c, t) then s else
    s.(handles := s.handles - multiset{t})
  }

  datatype Step =
    | Yield(c: Cpu)
    | PutBack(c: Cpu)
    | Pick(c: Cpu, t: Task)
    | PickIdle(c: Cpu)
    | SetRunning(c: Cpu)
    | Stay(c: Cpu)
    | SetOnCpu(c: Cpu)
    | SwapCurrent(c: Cpu)
    | ClearPrev(c: Cpu)
    | Block(c: Cpu, w: WaitQueue)
    | Notify(c: Cpu, w: WaitQueue, t: Task, target: Cpu)
    | WakeCas(c: Cpu)
    | SpinDone(c: Cpu)
    | Exit(c: Cpu)
    | JoinersDone(c: Cpu)
    | PushExited(c: Cpu)
    | GcNotWaiting(c: Cpu)
    | GcTake(c: Cpu, t: Task)
    | GcReturn(c: Cpu)
    | GcDrop(c: Cpu)
    | SetAffinity(c: Cpu, mask: set<Cpu>)
    | StartMigration(c: Cpu, m: Task)
    | MigrateEntry(c: Cpu, target: Cpu)
    | MigrationDone(c: Cpu)
    | Spawn(c: Cpu, t: Task, mask: set<Cpu>, target: Cpu)
    | TakeHandle(c: Cpu)
    | DropHandle(c: Cpu, t: Task)

  ghost predicate Enabled(s: Kernel, a: Step) {
    match a
    case Yield(c) => CanYield(s, c)
    case PutBack(c) => CanPutBack(s, c)
    case Pick(c, t) => CanPick(s, c, t)
    case PickIdle(c) => CanPickIdle(s, c)
    case SetRunning(c) => CanSetRunning(s, c)
    case Stay(c) => CanStay(s, c)
    case SetOnCpu(c) => CanSetOnCpu(s, c)
    case SwapCurrent(c) => CanSwapCurrent(s, c)
    case ClearPrev(c) => CanClearPrev(s, c)
    case Block(c, w) => CanBlock(s, c, w)
    case Notify(c, w, t, target) => CanNotify(s, c, w, t, target)
    case WakeCas(c) => CanWakeCas(s, c)
    case SpinDone(c) => CanSpinDone(s, c)
    case Exit(c) => CanExit(s, c)
    case JoinersDone(c) => CanJoinersDone(s, c)
    case PushExited(c) => CanPushExited(s, c)
    case GcNotWaiting(c) => CanGcNotWaiting(s, c)
    case GcTake(c, t) => CanGcTake(s, c, t)
    case GcReturn(c) => CanGcReturn(s, c)
    case GcDrop(c) => CanGcDrop(s, c)
    case SetAffinity(c, mask) => CanSetAffinity(s, c, mask)
    case StartMigration(c, m) => CanStartMigration(s, c, m)
    case MigrateEntry(c, target) => CanMigrateEntry(s, c, target)
    case MigrationDone(c) => CanMigrationDone(s, c)
    case Spawn(c, t, mask, target) => CanSpawn(s, c, t, mask, target)
    case TakeHandle(c) => CanTakeHandle(s, c)
    case DropHandle(c, t) => CanDropHandle(s, c, t)
  }

  /** The steps up to the end of a switch. */
  predicate IsSwitchStep(a: Step) {
    || a.Yield? || a.PutBack? || a.Pick? || a.PickIdle? || a.SetRunning? || a.Stay? || a.SetOnCpu? || a.SwapCurrent?
    || a.ClearPrev?
  }

  /** The state after a step; one that is not possible changes nothing. */
  ghost function Do(s: Kernel, a: Step): Kernel {
    match a
    case Yield(c) => DoYield(s, c)
    case PutBack(c) => DoPutBack(s, c)
    case Pick(c, t) => DoPick(s, c, t)
    case PickIdle(c) => DoPickIdle(s, c)
    case SetRunning(c) => DoSetRunning(s, c)
    case Stay(c) => DoStay(s, c)
    case SetOnCpu(c) => DoSetOnCpu(s, c)
    case SwapCurrent(c) => DoSwapCurrent(s, c)
    case ClearPrev(c) => DoClearPrev(s, c)
    case Block(c, w) => DoBlock(s, c, w)
    case Notify(c, w, t, target) => DoNotify(s, c, w, t, target)
    case WakeCas(c) => DoWakeCas(s, c)
    case SpinDone(c) => DoSpinDone(s, c)
    case Exit(c) => DoExit(s, c)
    case JoinersDone(c) => DoJoinersDone(s, c)
    case PushExited(c) => DoPushExited(s, c)
    case GcNotWaiting(c) => DoGcNotWaiting(s, c)
    case GcTake(c, t) => DoGcTake(s, c, t)
    case GcReturn(c) => DoGcReturn(s, c)
    case GcDrop(c) => DoGcDrop(s, c)
    case SetAffinity(c, mask) => DoSetAffinity(s, c, mask)
    case StartMigration(c, m) => DoStartMigration(s, c, m)
    case MigrateEntry(c, target) => DoMigrateEntry(s, c, target)
    case MigrationDone(c) => DoMigrationDone(s, c)
    case Spawn(c, t, mask, target) => DoSpawn(s, c, t, mask, target)
    case TakeHandle(c) => DoTakeHandle(s, c)
    case DropHandle(c, t) => DoDropHandle(s, c, t)
  }
}
