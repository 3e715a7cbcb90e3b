/**
 What the invariant says of every state the SMP scheduler reaches from boot.
 */
module SmpSafety {
  import opened Common
  import opened SmpInvariant
  import opened SmpKernel

  // ---------------------------------------------------------------- boot and runs

  function BootIdle(c: Cpu): Task { 2 * c + 1 }

  function BootGc(c: Cpu): Task { 2 * c + 2 }

  /** CPU 0 runs `main`, the others their idle tasks; every queue holds the GC task of its CPU. */
  function BootCpu(c: Cpu): PerCpu {
    PerCpu(BootIdle(c), BootGc(c), if c == 0 then 0 else BootIdle(c), Run, multiset{BootGc(c)}, multiset{}, None)
  }

  function Cpus(n: nat): (r: set<Cpu>)
    ensures forall c: Cpu :: c in r <==> c < n
  {
    if n == 0 then {} else Cpus(n - 1) + {n - 1}
  }

  function BootTask(n: nat, t: Task): TaskInner {
    if t == 0 then TaskInner(Running, Cpus(n), true, false)
    else if t == BootIdle(0) then TaskInner(Ready, {0}, false, false)
    else if t % 2 == 1 then TaskInner(Running, Cpus(n), true, false)
    else TaskInner(Ready, {t / 2 - 1}, false, false)
  }

  function Boot(n: nat): Kernel {
    Kernel(seq(n, c requires c >= 0 => BootCpu(c)), Cpus(n), 0, map t: Task | t <= 2 * n :: BootTask(n, t),
           map[], map[], multiset{}, {}, {}, {})
  }

  ghost function BootPlaces(n: nat): map<Task, Place> {
    map t: Task | t <= 2 * n :: if t == 0 then Cur(0) else if t % 2 == 1 then IdleSlot(t / 2) else Queue(t / 2 - 1)
  }

  ghost function BootStacks(n: nat): map<Task, Cpu> {
    map t: Task | t <= 2 * n && (t == 0 || (t % 2 == 1 && t != 1)) :: t / 2
  }

  lemma BootPlaceOk(n: nat, t: Task)
    requires n >= 1
    ensures PlaceInv(Boot(n), t, Get(BootPlaces(n), t))
  {
  }

  lemma BootStackOk(n: nat, t: Task)
    requires n >= 1
    ensures StackInv(Boot(n), t, Get(BootPlaces(n), t), Get(BootStacks(n), t))
  {
  }

  lemma BootNoStrays(n: nat, t: Task)
    requires n >= 1
    ensures NoStrays(Boot(n), t, Get(BootPlaces(n), t))
  {
  }

  lemma BootCpuOk(n: nat, c: Cpu)
    requires c < n
    ensures CpuInv(Boot(n), BootPlaces(n), BootStacks(n), c)
  {
  }

  lemma BootInv(n: nat)
    requires n >= 1
    ensures Inv(Boot(n), BootPlaces(n), BootStacks(n))
  {
    forall t: Task
      ensures TaskInv(Boot(n), t, Get(BootPlaces(n), t), Get(BootStacks(n), t))
    {
      BootPlaceOk(n, t);
      BootStackOk(n, t);
      BootNoStrays(n, t);
    }
    forall c: Cpu | c < n
      ensures CpuInv(Boot(n), BootPlaces(n), BootStacks(n), c)
    {
      BootCpuOk(n, c);
    }
  }

  ghost predicate IsBoot(s: Kernel) {
    exists n: nat :: n >= 1 && s == Boot(n)
  }

  ghost predicate Takes(s: Kernel, a: Step, s': Kernel) {
    Shape(s) && Enabled(s, a) && s' == Do(s, a)
  }

  /** The states that the steps `acts` of the CPUs, in any interleaving, lead through from boot. */
  ghost predicate IsRun(states: seq<Kernel>, acts: seq<Step>) {
    && |states| == |acts| + 1 && IsBoot(states[0])
    && forall i, j :: 0 <= i < |acts| && j == i + 1 ==> Takes(states[i], acts[i], states[j])
  }

  lemma SwitchStepKeeps(s: Kernel, a: Step, f: map<Task, Place>, b: map<Task, Cpu>)
    returns (f': map<Task, Place>, b': map<Task, Cpu>)
    requires Inv(s, f, b) && Enabled(s, a) && IsSwitchStep(a)
    ensures Inv(Do(s, a), f', b')
  {
    f', b' := f, b;
    match a
    case Yield(c) =>
      YieldKeeps(s, c, f, b);
    case PutBack(c) =>
      PutBackKeeps(s, c, f, b);
      f' := f[s.cpu[c].current := Queue(c)];
    case Pick(c, t) =>
      PickKeeps(s, c, t, f, b);
      f' := f[t := Next(c)];
    case PickIdle(c) =>
      PickIdleKeeps(s, c, f, b);
    case SetRunning(c) =>
      SetRunningKeeps(s, c, f, b);
    case Stay(c) =>
      StayKeeps(s, c, f, b);
      f' := f[s.cpu[c].current := Home(s, c, s.cpu[c].current, Cur(c))];
    case SetOnCpu(c) =>
      SetOnCpuKeeps(s, c, f, b);
      b' := b[s.cpu[c].phase.next := c];
    case SwapCurrent(c) =>
      SwapCurrentKeeps(s, c, f, b);
      f' := f[s.cpu[c].phase.next := Home(s, c, s.cpu[c].phase.next, Cur(c))];
    case ClearPrev(c) =>
      ClearPrevKeeps(s, c, f, b);
      b' := b - {s.cpu[c].phase.prev};
  }

  lemma OtherStepKeeps(s: Kernel, a: Step, f: map<Task, Place>, b: map<Task, Cpu>)
    returns (f': map<Task, Place>, b': map<Task, Cpu>)
    requires Inv(s, f, b) && Enabled(s, a) && !IsSwitchStep(a)
    ensures Inv(Do(s, a), f', b')
  {
    f', b' := f, b;
    match a
    case Block(c, w) =>
      BlockKeeps(s, c, w, f, b);
      f' := f[s.cpu[c].current := Waiting(w)];
    case Notify(c, w, t, target) =>
      NotifyKeeps(s, c, w, t, target, f, b);
      f' := f[t := Hand(c)];
    case WakeCas(c) =>
      WakeCasKeeps(s, c, f, b);
    case SpinDone(c) =>
      SpinDoneKeeps(s, c, f, b);
      f' := f[s.cpu[c].phase.task := Queue(s.cpu[c].phase.target)];
    case Exit(c) =>
      ExitKeeps(s, c, f, b);
    case JoinersDone(c) =>
      JoinersDoneKeeps(s, c, f, b);
    case PushExited(c) =>
      PushExitedKeeps(s, c, f, b);
      f' := f[s.cpu[c].current := Grave(c)];
    case GcNotWaiting(c) =>
      GcNotWaitingKeeps(s, c, f, b);
    case GcTake(c, t) =>
      GcTakeKeeps(s, c, t, f, b);
    case GcReturn(c) =>
      GcReturnKeeps(s, c, f, b);
    case GcDrop(c) =>
      GcDropKeeps(s, c, f, b);
      f' := f[s.cpu[c].gcHand.value := Freed];
    case SetAffinity(c, mask) =>
      SetAffinityKeeps(s, c, mask, f, b);
    case StartMigration(c, m) =>
      StartMigrationKeeps(s, c, m, f, b);
      f' := f[s.cpu[c].current := Closure(m)][m := Next(c)];
    case MigrateEntry(c, target) =>
      MigrateEntryKeeps(s, c, target, f, b);
      f' := f[s.closure[s.cpu[c].current] := Queue(target)];
    case MigrationDone(c) =>
      MigrationDoneKeeps(s, c, f, b);
    case Spawn(c, t, mask, target) =>
      SpawnKeeps(s, c, t, mask, target, f, b);
      f' := f[t := Queue(target)];
    case TakeHandle(c) =>
      TakeHandleKeeps(s, c, f, b);
    case DropHandle(c, t) =>
      DropHandleKeeps(s, c, t, f, b);
  }

  lemma StepKeeps(s: Kernel, a: Step, f: map<Task, Place>, b: map<Task, Cpu>)
    returns (f': map<Task, Place>, b': map<Task, Cpu>)
    requires Inv(s, f, b) && Enabled(s, a)
    ensures Inv(Do(s, a), f', b')
  {
    if IsSwitchStep(a) {
      f', b' := SwitchStepKeeps(s, a, f, b);
    } else {
      f', b' := OtherStepKeeps(s, a, f, b);
    }
  }

  lemma {:induction false} RunKeeps(states: seq<Kernel>, acts: seq<Step>, i: nat)
    returns (f: map<Task, Place>, b: map<Task, Cpu>)
    requires IsRun(states, acts) && i < |states|
    ensures Inv(states[i], f, b)
  {
    if i == 0 {
      var n: nat :| n >= 1 && states[0] == Boot(n);
      BootInv(n);
      f, b := BootPlaces(n), BootStacks(n);
    } else {
      f, b := RunKeeps(states, acts, i - 1);
      assert Takes(states[i - 1], acts[i - 1], states[i]);
      f, b := StepKeeps(states[i - 1], acts[i - 1], f, b);
    }
  }

  // ---------------------------------------------------------------- what every reachable state satisfies

  /** Task `t` is physically at place `p`. */
  ghost predicate LiesAt(s: Kernel, t: Task, p: Place) {
    match p
    case Queue(c) => c < |s.cpu| && t in s.cpu[c].ready
    case Waiting(w) => t in Waiters(s, w)
    case Hand(c) => c < |s.cpu| && HandOf(s.cpu[c].phase) == Some(t)
    case Closure(m) => m in s.closure && s.closure[m] == t
    case Next(c) => c < |s.cpu| && NextOf(s.cpu[c].phase) == Some(t) && t != s.cpu[c].idle
    case Cur(c) => c < |s.cpu| && s.cpu[c].current == t && !Leaving(s.cpu[c].phase) && t != s.cpu[c].idle
    case Grave(c) => c < |s.cpu| && (t in s.cpu[c].exited || s.cpu[c].gcHand == Some(t))
    case IdleSlot(c) => c < |s.cpu| && s.cpu[c].idle == t
    case Freed => t in s.freed
  }

  /** No task is ever lost, queued twice or in two places, and its state fits its place. */
  ghost predicate OnePlace(s: Kernel, t: Task) {
    exists p :: LiesAt(s, t, p) && TaskOk(s, t, p) && forall q :: LiesAt(s, t, q) ==> q == p
  }

  /** CPU `c` executes on the stack of `t`, or has just left it or is about to enter it. */
  ghost predicate UsesStack(s: Kernel, c: Cpu, t: Task) {
    c < |s.cpu| && (s.cpu[c].current == t || s.cpu[c].phase == Clear(t) || s.cpu[c].phase == Swap(t))
  }

  /** `on_cpu` tells exactly when some CPU uses the stack of a task, and never do two. */
  ghost predicate StackExclusive(s: Kernel, t: Task) {
    && (IsOnCpu(s, t) <==> exists c :: UsesStack(s, c, t))
    && (forall c, d :: UsesStack(s, c, t) && UsesStack(s, d, t) ==> c == d)
  }

  /** A task that a CPU uses is in no ready queue but the one of that CPU. */
  ghost predicate QueuedAtHome(s: Kernel, t: Task) {
    forall c: Cpu, d: Cpu :: UsesStack(s, c, t) && d < |s.cpu| && t in s.cpu[d].ready ==> c == d
  }

  /** Tasks are queued and run where their affinity allows, except on the way to a migration. */
  ghost predicate AffinityRespected(s: Kernel, t: Task) {
    forall c: Cpu :: LiesAt(s, t, Queue(c)) || LiesAt(s, t, Next(c)) || LiesAt(s, t, Cur(c)) ==>
      t in s.tasks && (c in s.tasks[t].cpumask || t in s.unsettled)
  }

  /** The garbage collector frees a task when, and only when, nothing refers to it any more. */
  ghost predicate FreedIffUnreferenced(s: Kernel, t: Task) {
    t in s.tasks ==> (t in s.freed <==> forall r :: !Holds(s, r, t))
  }

  /** The run-time checks of the scheduler, at the points where CPU `c` makes them. */
  ghost predicate ChecksPass(s: Kernel, c: Cpu)
    requires c < |s.cpu|
  {
    var t := s.cpu[c].current;
    var p := s.cpu[c].phase;
    && (p.Run? ==> InState(s, t, Running))
    && (p.Switch? ==> InState(s, p.next, Ready))
    && (p.Swap? ==> exists r :: r != CurrentRef(c) && Holds(s, r, t))
    && (p.Clear? ==> exists r :: Holds(s, r, p.prev))
    && (p.Wake? ==> InState(s, p.task, Blocked))
    && (HandOf(p).Some? ==> p.target < |s.cpu|)
    && (p.Run? && t in s.moving ==> t in s.tasks && c in s.tasks[t].cpumask)
    && (p.Run? && t in s.closure ==> !IsOnCpu(s, s.closure[t]))
  }

  ghost predicate Safe(s: Kernel) {
    && (forall t: Task :: t in s.tasks ==> OnePlace(s, t))
    && (forall t: Task :: StackExclusive(s, t) && QueuedAtHome(s, t))
    && (forall t: Task :: AffinityRespected(s, t) && FreedIffUnreferenced(s, t))
    && (forall c: Cpu :: c < |s.cpu| ==> ChecksPass(s, c))
  }

  lemma AtPlace(s: Kernel, f: map<Task, Place>, b: map<Task, Cpu>, t: Task, q: Place)
    requires Inv(s, f, b) && LiesAt(s, t, q)
    ensures At(f, t, q)
  {
    Known(s, f, b, t);
    match q
    case Hand(c) => KnownCpu(s, f, b, c);
    case Next(c) => KnownCpu(s, f, b, c);
    case Cur(c) => KnownCpu(s, f, b, c);
    case Grave(c) => KnownCpu(s, f, b, c);
    case IdleSlot(c) => KnownCpu(s, f, b, c);
    case _ =>
  }

  lemma OnePlaceHolds(s: Kernel, f: map<Task, Place>, b: map<Task, Cpu>, t: Task)
    requires Inv(s, f, b) && t in s.tasks
    ensures OnePlace(s, t)
  {
    Known(s, f, b, t);
    var p := f[t];
    assert LiesAt(s, t, p) && TaskOk(s, t, p);
    forall q | LiesAt(s, t, q)
      ensures q == p
    {
      AtPlace(s, f, b, t, q);
    }
  }

  lemma UserIsBound(s: Kernel, f: map<Task, Place>, b: map<Task, Cpu>, c: Cpu, t: Task)
    requires Inv(s, f, b) && UsesStack(s, c, t)
    ensures t in b && b[t] == c && IsOnCpu(s, t)
  {
    KnownCpu(s, f, b, c);
    Known(s, f, b, t);
  }

  lemma StackExclusiveHolds(s: Kernel, f: map<Task, Place>, b: map<Task, Cpu>, t: Task)
    requires Inv(s, f, b)
    ensures StackExclusive(s, t) && QueuedAtHome(s, t)
  {
    Known(s, f, b, t);
    if t in b {
      assert UsesStack(s, b[t], t);
    }
    forall c | UsesStack(s, c, t)
      ensures t in b && b[t] == c && IsOnCpu(s, t)
    {
      UserIsBound(s, f, b, c, t);
    }
  }

  lemma AffinityHolds(s: Kernel, f: map<Task, Place>, b: map<Task, Cpu>, t: Task)
    requires Inv(s, f, b)
    ensures AffinityRespected(s, t)
  {
    Known(s, f, b, t);
    forall q | LiesAt(s, t, q)
      ensures At(f, t, q)
    {
      AtPlace(s, f, b, t, q);
    }
  }

  /** The reference that keeps a task alive at each of its places. */
  ghost function RefAt(s: Kernel, t: Task, p: Place): Ref {
    match p
    case Queue(c) => ReadyRef(c)
    case Waiting(w) => WaitRef(w)
    case Hand(c) => WakerRef(c)
    case Closure(m) => ClosureRef(m)
    case Next(c) => NextRef(c)
    case Cur(c) => CurrentRef(c)
    case Grave(c) => if c < |s.cpu| && t in s.cpu[c].exited then ExitedRef(c) else GcRef(c)
    case IdleSlot(c) => IdleRef(c)
    case Freed => Handle
  }

  lemma NotFreedIsHeld(s: Kernel, f: map<Task, Place>, b: map<Task, Cpu>, t: Task)
    requires Inv(s, f, b) && t in s.tasks && t !in s.freed
    ensures t in f && Holds(s, RefAt(s, t, f[t]), t)
  {
    Known(s, f, b, t);
  }

  lemma HolderIsNotFreed(s: Kernel, f: map<Task, Place>, b: map<Task, Cpu>, t: Task, r: Ref)
    requires Inv(s, f, b) && Holds(s, r, t)
    ensures t !in s.freed
  {
    Known(s, f, b, t);
    if r.CurrentRef? || r.WakerRef? || r.NextRef? || r.PutRef? || r.GcRef? || r.IdleRef? {
      KnownCpu(s, f, b, r.cpu);
    }
  }

  lemma FreedIffUnreferencedHolds(s: Kernel, f: map<Task, Place>, b: map<Task, Cpu>, t: Task)
    requires Inv(s, f, b)
    ensures FreedIffUnreferenced(s, t)
  {
    if t in s.tasks && t !in s.freed {
      NotFreedIsHeld(s, f, b, t);
    }
    forall r | Holds(s, r, t)
      ensures t !in s.freed
    {
      HolderIsNotFreed(s, f, b, t, r);
    }
  }

  lemma ChecksHold(s: Kernel, f: map<Task, Place>, b: map<Task, Cpu>, c: Cpu)
    requires Inv(s, f, b) && c < |s.cpu|
    ensures ChecksPass(s, c)
  {
    var t := s.cpu[c].current;
    var p := s.cpu[c].phase;
    KnownCpu(s, f, b, c);
    Known(s, f, b, t);
    if p.Run? && t in s.closure {
      MigratedIsOff(s, c, f, b);
    } else if p.Switch? {
      Known(s, f, b, p.next);
    } else if p.Swap? {
      NotFreedIsHeld(s, f, b, t);
      assert RefAt(s, t, f[t]) != CurrentRef(c);
    } else if p.Clear? {
      Known(s, f, b, p.prev);
      NotFreedIsHeld(s, f, b, p.prev);
    } else if p.Wake? || p.Spin? {
      Known(s, f, b, p.task);
    }
  }

  /** Every state of every run is safe, for any number of CPUs. */
  lemma EveryRunIsSafe(states: seq<Kernel>, acts: seq<Step>, i: nat)
    requires IsRun(states, acts) && i < |states|
    ensures Safe(states[i])
  {
    var f, b := RunKeeps(states, acts, i);
    var s := states[i];
    forall t: Task | t in s.tasks
      ensures OnePlace(s, t)
    {
      OnePlaceHolds(s, f, b, t);
    }
    forall t: Task
      ensures StackExclusive(s, t) && QueuedAtHome(s, t) && AffinityRespected(s, t) && FreedIffUnreferenced(s, t)
    {
      StackExclusiveHolds(s, f, b, t);
      AffinityHolds(s, f, b, t);
      FreedIffUnreferencedHolds(s, f, b, t);
    }
    forall c: Cpu | c < |s.cpu|
      ensures ChecksPass(s, c)
    {
      ChecksHold(s, f, b, c);
    }
  }
}
