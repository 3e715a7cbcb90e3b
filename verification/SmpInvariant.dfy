/**
 The invariant of the SMP scheduler: `f` is the one place each task is in, and `b` the one
 CPU that uses its stack, for the tasks some CPU uses.
 */
module SmpInvariant {
  import opened Common
  import opened SmpKernel

  datatype Place =
    | Queue(cpu: Cpu)          // in the ready queue of a CPU
    | Waiting(queue: WaitQueue)
    | Hand(cpu: Cpu)           // with the CPU that unblocks it
    | Closure(owner: Task)     // with a migration task
    | Next(cpu: Cpu)           // picked by a CPU that switches to it
    | Cur(cpu: Cpu)            // current on a CPU and not yet given up by it
    | Grave(cpu: Cpu)          // in the exited list of a CPU, or with its GC task
    | IdleSlot(cpu: Cpu)
    | Freed

  /** Unblocking the GC task is the last thing a CPU does for an exiting task. */
  predicate LastRites(p: Phase) {
    p.ExitGc? || ((p.Wake? || p.Spin?) && p.cont.ToResched?)
  }

  /** In these phases the CPU has already given its current task away. */
  predicate Leaving(p: Phase) {
    p.Resched? || p.Switch? || p.Claim? || p.Swap? || LastRites(p)
  }

  predicate Exiting(p: Phase) {
    p.ExitLoop? || p.ExitPush? || ((p.Wake? || p.Spin?) && p.cont.ToExitLoop?)
  }

  /** The state of a current task that has not been given away. */
  function OwnState(p: Phase): TaskState {
    if p.Put? then Ready else if Exiting(p) then Exited else Running
  }

  function IdleState(k: PerCpu): TaskState {
    if k.phase.Claim? || k.phase.Swap? then (if k.phase.next == k.idle then Running else Ready)
    else if k.current == k.idle && !Leaving(k.phase) then Running
    else Ready
  }

  ghost predicate At(f: map<Task, Place>, t: Task, p: Place) {
    t in f && f[t] == p
  }

  function One(b: bool): nat {
    if b then 1 else 0
  }

  /** Task `t` is at place `p`, once, and in the state that goes with the place. */
  ghost predicate TaskOk(s: Kernel, t: Task, p: Place) {
    && t in s.tasks && var st := s.tasks[t].state;
    && (s.tasks[t].inWaitQueue <==> p.Waiting?)
    && match p
       case Queue(c) => c < |s.cpu| && s.cpu[c].ready[t] == 1 && st == Ready
       case Waiting(w) => Waiters(s, w)[t] == 1 && st == Blocked
       case Hand(c) => c < |s.cpu| && var h := s.cpu[c].phase;
         HandOf(h) == Some(t) && st == if h.Wake? then Blocked else Ready
       case Closure(m) => m in s.closure && s.closure[m] == t && st == Ready
       case Next(c) => c < |s.cpu| && var k := s.cpu[c];
         NextOf(k.phase) == Some(t) && t != k.idle && st == if k.phase.Switch? then Ready else Running
       case Cur(c) => c < |s.cpu| && var k := s.cpu[c];
         k.current == t && !Leaving(k.phase) && t != k.idle && st == OwnState(k.phase)
       case Grave(c) => c < |s.cpu| && s.cpu[c].exited[t] + One(s.cpu[c].gcHand == Some(t)) == 1 && st == Exited
       case IdleSlot(c) => c < |s.cpu| && s.cpu[c].idle == t && st == IdleState(s.cpu[c])
       case Freed => t in s.freed && st == Exited
  }

  /** A task that is not at a place is in no queue, list or closure other than that of its place. */
  ghost predicate NoStrays(s: Kernel, t: Task, o: Option<Place>) {
    && (forall c: Cpu :: c < |s.cpu| && t in s.cpu[c].ready ==> o == Some(Queue(c)))
    && (forall c: Cpu :: c < |s.cpu| && t in s.cpu[c].exited ==> o == Some(Grave(c)))
    && (forall w: WaitQueue :: t in Waiters(s, w) ==> o == Some(Waiting(w)))
    && (forall m: Task :: m in s.closure && s.closure[m] == t ==> o == Some(Closure(m)))
    && (t in s.freed ==> o == Some(Freed) && t !in s.handles)
    && (t in s.closure ==> t in s.tasks)
  }

  /** A task on a CPU is on one of its mask, unless it is just about to migrate away. */
  ghost predicate MaskOk(s: Kernel, t: Task, p: Place) {
    && t in s.tasks && s.tasks[t].cpumask != {} && s.tasks[t].cpumask <= s.fullMask
    && (p.Queue? || p.Next? || p.Cur? ==> p.cpu in s.tasks[t].cpumask || t in s.unsettled)
    && (t in s.unsettled ==> p.Queue? || p.Next? || p.Cur?)
  }

  /** Where task `t` may be while CPU `c` still uses its stack, or is about to. */
  ghost predicate StackOk(s: Kernel, t: Task, p: Place, c: Cpu) {
    && c < |s.cpu| && IsOnCpu(s, t) && var k := s.cpu[c];
    && (k.current == t || k.phase == Clear(t) || k.phase == Swap(t))
    && match p
       case Waiting(_) => true
       case Hand(d) => d != c
       case Closure(m) => NextOf(k.phase) == Some(m) || (k.current == m && k.phase == Clear(t))
       case Freed => false
       case _ => p.cpu == c
  }

  /** Every task is at one place, in the state that goes with it. */
  ghost predicate PlaceInv(s: Kernel, t: Task, o: Option<Place>) {
    && (o.Some? <==> t in s.tasks)
    && (o.Some? ==> TaskOk(s, t, o.value))
  }

  /** Masks are respected, and `on_cpu` is set for just the tasks whose stack a CPU `k` uses. */
  ghost predicate StackInv(s: Kernel, t: Task, o: Option<Place>, k: Option<Cpu>) {
    && (o.Some? ==> MaskOk(s, t, o.value))
    && (t in s.unsettled ==> o.Some? && t !in s.moving)
    && (IsOnCpu(s, t) <==> k.Some?)
    && (k.Some? ==> o.Some? && StackOk(s, t, o.value, k.value))
  }

  /** The place of `u` once task `x` has moved to `p`. */
  ghost function Put(o: Option<Place>, u: Task, x: Task, p: Place): Option<Place> {
    if u == x then Some(p) else o
  }

  /** The idle task of a CPU is always in its slot. */
  ghost function Home(s: Kernel, c: Cpu, t: Task, p: Place): Place {
    if c < |s.cpu| && t == s.cpu[c].idle then IdleSlot(c) else p
  }

  ghost function Get<V>(m: map<Task, V>, t: Task): Option<V> {
    if t in m then Some(m[t]) else None
  }

  /** The tasks that CPU `c` refers to are where it says. */
  ghost predicate CpuPlaces(s: Kernel, f: map<Task, Place>, c: Cpu) {
    c < |s.cpu| &&
    var k := s.cpu[c];
    var p := k.phase;
    && (!Leaving(p) && k.current != k.idle ==> At(f, k.current, Cur(c)))
    && (NextOf(p).Some? ==> p.next == k.idle || At(f, p.next, Next(c)))
    && (HandOf(p).Some? ==> At(f, p.task, Hand(c)))
    && (LastRites(p) ==> At(f, k.current, Grave(c)))
    && (k.gcHand.Some? ==> At(f, k.gcHand.value, Grave(c)))
    && At(f, k.idle, IdleSlot(c))
    && (p.Put? || Exiting(p) ==> k.current != k.idle)
    && (p.Clear? ==> p.prev != k.current)
    && (p.Claim? || p.Swap? ==> p.next != k.current)
  }

  /** The stacks CPU `c` uses, and the tasks that do not migrate away from it. */
  ghost predicate CpuStacks(s: Kernel, b: map<Task, Cpu>, c: Cpu) {
    c < |s.cpu| &&
    var k := s.cpu[c];
    var p := k.phase;
    && k.current in b && b[k.current] == c
    && (p.Clear? ==> p.prev in b && b[p.prev] == c)
    && (p.Swap? ==> p.next in b && b[p.next] == c)
    && (HandOf(p).Some? ==> p.task in s.tasks && p.target in s.tasks[p.task].cpumask)
    && (Exiting(p) ==> k.current !in s.unsettled)
    && k.gc in s.tasks && s.tasks[k.gc].cpumask == {c}
    && k.gc !in s.unsettled && k.gc !in s.moving && k.gc !in s.closure
    && k.idle !in s.unsettled && k.idle !in s.moving && k.idle !in s.closure
  }

  /** All of this for one task. */
  ghost predicate TaskInv(s: Kernel, t: Task, o: Option<Place>, k: Option<Cpu>) {
    PlaceInv(s, t, o) && StackInv(s, t, o, k) && NoStrays(s, t, o)
  }

  /** All of this for one CPU. */
  ghost predicate CpuInv(s: Kernel, f: map<Task, Place>, b: map<Task, Cpu>, c: Cpu) {
    CpuPlaces(s, f, c) && CpuStacks(s, b, c)
  }

  /** At most one CPU holds the lock of a wait queue. */
  ghost predicate Locks(s: Kernel) {
    forall c: Cpu, d: Cpu :: c < d < |s.cpu| && HandOf(s.cpu[c].phase).Some? && HandOf(s.cpu[d].phase).Some? ==>
      s.cpu[c].phase.lock != s.cpu[d].phase.lock
  }

  ghost predicate Inv(s: Kernel, f: map<Task, Place>, b: map<Task, Cpu>) {
    && Shape(s)
    && (forall t: Task {:trigger TaskInv(s, t, Get(f, t), Get(b, t))} :: TaskInv(s, t, Get(f, t), Get(b, t)))
    && (forall c: Cpu {:trigger CpuInv(s, f, b, c)} :: c < |s.cpu| ==> CpuInv(s, f, b, c))
    && Locks(s)
  }

  // ---------------------------------------------------------------- what a CPU refers to

  ghost function Current(s: Kernel, c: Cpu): Task { if c < |s.cpu| then s.cpu[c].current else 0 }

  ghost function Idle(s: Kernel, c: Cpu): Task { if c < |s.cpu| then s.cpu[c].idle else 0 }

  ghost function GcOf(s: Kernel, c: Cpu): Task { if c < |s.cpu| then s.cpu[c].gc else 0 }

  ghost function NextTask(s: Kernel, c: Cpu): Task {
    if c < |s.cpu| && NextOf(s.cpu[c].phase).Some? then s.cpu[c].phase.next else 0
  }

  ghost function PrevTask(s: Kernel, c: Cpu): Task {
    if c < |s.cpu| && s.cpu[c].phase.Clear? then s.cpu[c].phase.prev else 0
  }

  ghost predicate IsHand(s: Kernel, c: Cpu, t: Task) { c < |s.cpu| && HandOf(s.cpu[c].phase) == Some(t) }

  ghost function HandTask(s: Kernel, c: Cpu): Task {
    if c < |s.cpu| && HandOf(s.cpu[c].phase).Some? then s.cpu[c].phase.task else 0
  }

  ghost function TargetCpu(s: Kernel, c: Cpu): Cpu {
    if c < |s.cpu| && HandOf(s.cpu[c].phase).Some? then s.cpu[c].phase.target else 0
  }

  ghost function GcTask(s: Kernel, c: Cpu): Task {
    if c < |s.cpu| && s.cpu[c].gcHand.Some? then s.cpu[c].gcHand.value else 0
  }

  /** The task that the migration task on CPU `c` owns. */
  ghost function Owned(s: Kernel, c: Cpu): Task {
    if Current(s, c) in s.closure then s.closure[Current(s, c)] else 0
  }

  ghost predicate InReady(s: Kernel, c: Cpu, t: Task) { c < |s.cpu| && t in s.cpu[c].ready }

  ghost predicate ReadyOnce(s: Kernel, c: Cpu, t: Task) { c < |s.cpu| && s.cpu[c].ready[t] == 1 }

  ghost predicate InExited(s: Kernel, c: Cpu, t: Task) { c < |s.cpu| && t in s.cpu[c].exited }

  ghost predicate ExitedOnce(s: Kernel, c: Cpu, t: Task) { c < |s.cpu| && s.cpu[c].exited[t] == 1 }

  ghost predicate InGrave(s: Kernel, c: Cpu, t: Task) {
    c < |s.cpu| && (t in s.cpu[c].exited || s.cpu[c].gcHand == Some(t))
  }

  ghost predicate Allowed(s: Kernel, t: Task, c: Cpu) { t in s.tasks && c in s.tasks[t].cpumask }

  // ---------------------------------------------------------------- what a step leaves alone

  /** A step that moves nothing into or out of a queue, list or closure. */
  ghost predicate SameContents(s: Kernel, s': Kernel) {
    && |s'.cpu| == |s.cpu| && s'.waiting == s.waiting && s'.closure == s.closure
    && s'.freed == s.freed && s'.handles <= s.handles
    && (forall t :: t in s.tasks ==> t in s'.tasks)
    && (forall c: Cpu :: c < |s.cpu| ==> s'.cpu[c].ready == s.cpu[c].ready && s'.cpu[c].exited == s.cpu[c].exited)
  }

  lemma SameStrays(s: Kernel, s': Kernel, u: Task, o: Option<Place>)
    requires SameContents(s, s') && NoStrays(s, u, o)
    ensures NoStrays(s', u, o)
  {
    forall w | u in Waiters(s', w)
      ensures o == Some(Waiting(w))
    {
      assert u in Waiters(s, w);
    }
  }

  /** A step of CPU `c` after which it holds no lock but the one it held, or one that was free. */
  ghost predicate LockStep(s: Kernel, s': Kernel, c: Cpu) {
    && c < |s.cpu| == |s'.cpu|
    && (forall d: Cpu :: d < |s.cpu| && d != c ==> s'.cpu[d].phase == s.cpu[d].phase)
    && var p := s.cpu[c].phase;
    var p' := s'.cpu[c].phase;
    HandOf(p').Some? ==> (HandOf(p).Some? && p'.lock == p.lock) || Unlocked(s, p'.lock)
  }

  lemma KeepLocks(s: Kernel, s': Kernel, c: Cpu)
    requires Locks(s) && LockStep(s, s', c)
    ensures Locks(s')
  {
  }

  /** The invariant after a step, from what the step does to each task and to each CPU. */
  lemma Assemble(s: Kernel, s': Kernel, c: Cpu, f: map<Task, Place>, b: map<Task, Cpu>)
    requires Locks(s) && LockStep(s, s', c) && Shape(s')
    requires forall u: Task :: TaskInv(s', u, Get(f, u), Get(b, u))
    requires forall d: Cpu :: d < |s'.cpu| ==> CpuInv(s', f, b, d)
    ensures Inv(s', f, b)
  {
    KeepLocks(s, s', c);
  }

  /** The task that a running migration task owns has been switched away from. */
  lemma MigratedIsOff(s: Kernel, c: Cpu, f: map<Task, Place>, b: map<Task, Cpu>)
    requires Inv(s, f, b)
    requires c < |s.cpu| && s.cpu[c].phase.Run? && s.cpu[c].current in s.closure
    ensures At(f, s.closure[s.cpu[c].current], Closure(s.cpu[c].current))
    ensures !IsOnCpu(s, s.closure[s.cpu[c].current])
  {
    var m := s.cpu[c].current;
    var x := s.closure[m];
    KnownCpu(s, f, b, c);
    Known(s, f, b, x);
    KnownCpu(s, f, b, if x in b then b[x] else c);
  }

  predicate OfCpu(p: Place, d: Cpu) {
    p == Cur(d) || p == Next(d) || p == Hand(d) || p == Grave(d) || p == IdleSlot(d)
  }

  /** What a CPU refers to stays where it is while other CPUs move other tasks. */
  lemma OtherRoles(s: Kernel, s': Kernel, f: map<Task, Place>, f': map<Task, Place>, d: Cpu)
    requires d < |s.cpu| == |s'.cpu| && CpuPlaces(s, f, d)
    requires s'.cpu[d] == s.cpu[d].(ready := s'.cpu[d].ready)
    requires forall t :: t in f && OfCpu(f[t], d) ==> t in f' && f'[t] == f[t]
    ensures CpuPlaces(s', f', d)
  {
  }

  /** The invariant, for one task. */
  lemma Known(s: Kernel, f: map<Task, Place>, b: map<Task, Cpu>, t: Task)
    requires Inv(s, f, b)
    ensures TaskInv(s, t, Get(f, t), Get(b, t))
  {
  }

  /** And for one CPU. */
  lemma KnownCpu(s: Kernel, f: map<Task, Place>, b: map<Task, Cpu>, c: Cpu)
    requires Inv(s, f, b) && c < |s.cpu|
    ensures CpuInv(s, f, b, c)
  {
  }

  /** A task that has been picked is in no container, so it may be said to be anywhere else. */
  lemma NextIsNowhere(s: Kernel, t: Task, c: Cpu, p: Place)
    requires NoStrays(s, t, Some(Next(c)))
    ensures NoStrays(s, t, Some(p))
  {
  }

  // ---------------------------------------------------------------- steps
  //
  // For each step X of CPU `c`, what it does to one task `u` at place `o` with stack user `k`
  // (XTask, or XPlace and XStack; XStrays where it moves a task between containers), what it
  // does to one CPU `d` (XCpu, or XRoles and XUses), and from these that the invariant is
  // kept (XKeeps).

  lemma YieldTask(s: Kernel, c: Cpu, u: Task, o: Option<Place>, k: Option<Cpu>)
    requires CanYield(s, c) && PlaceInv(s, u, o) && StackInv(s, u, o, k)
    requires u == Current(s, c) ==> o == Some(Cur(c)) || o == Some(IdleSlot(c))
    requires InState(s, Current(s, c), Running)
    ensures PlaceInv(DoYield(s, c), u, o)
    ensures StackInv(DoYield(s, c), u, o, k)
  {
  }

  lemma YieldRoles(s: Kernel, c: Cpu, f: map<Task, Place>, d: Cpu)
    requires CanYield(s, c) && d < |s.cpu| && CpuPlaces(s, f, c) && CpuPlaces(s, f, d)
    ensures CpuPlaces(DoYield(s, c), f, d)
  {
    if d != c {
      OtherRoles(s, DoYield(s, c), f, f, d);
    }
  }

  lemma YieldUses(s: Kernel, c: Cpu, b: map<Task, Cpu>, d: Cpu)
    requires CanYield(s, c) && d < |s.cpu| && CpuStacks(s, b, c) && CpuStacks(s, b, d)
    ensures CpuStacks(DoYield(s, c), b, d)
  {
  }

  lemma YieldKeeps(s: Kernel, c: Cpu, f: map<Task, Place>, b: map<Task, Cpu>)
    requires Inv(s, f, b) && CanYield(s, c)
    ensures Inv(DoYield(s, c), f, b)
  {
    var s' := DoYield(s, c);
    KnownCpu(s, f, b, c);
    Known(s, f, b, s.cpu[c].current);
    forall u: Task
      ensures TaskInv(s', u, Get(f, u), Get(b, u))
    {
      Known(s, f, b, u);
      YieldTask(s, c, u, Get(f, u), Get(b, u));
      SameStrays(s, s', u, Get(f, u));
    }
    forall d: Cpu | d < |s.cpu|
      ensures CpuInv(s', f, b, d)
    {
      KnownCpu(s, f, b, d);
      YieldRoles(s, c, f, d);
      YieldUses(s, c, b, d);
    }
    Assemble(s, s', c, f, b);
  }

  lemma PutBackPlace(s: Kernel, c: Cpu, u: Task, o: Option<Place>)
    requires CanPutBack(s, c) && PlaceInv(s, u, o)
    requires u == Current(s, c) ==> o == Some(Cur(c))
    requires !InReady(s, c, Current(s, c))
    ensures PlaceInv(DoPutBack(s, c), u, Put(o, u, s.cpu[c].current, Queue(c)))
  {
  }

  lemma PutBackStack(s: Kernel, c: Cpu, u: Task, o: Option<Place>, k: Option<Cpu>)
    requires CanPutBack(s, c) && StackInv(s, u, o, k)
    requires u == Current(s, c) ==> o == Some(Cur(c))
    requires !InReady(s, c, Current(s, c))
    ensures StackInv(DoPutBack(s, c), u, Put(o, u, s.cpu[c].current, Queue(c)), k)
  {
  }

  lemma PutBackStrays(s: Kernel, c: Cpu, u: Task, o: Option<Place>)
    requires CanPutBack(s, c) && NoStrays(s, u, o)
    requires u == Current(s, c) ==> o == Some(Cur(c))
    ensures NoStrays(DoPutBack(s, c), u, Put(o, u, s.cpu[c].current, Queue(c)))
  {
  }

  lemma PutBackCpu(s: Kernel, c: Cpu, f: map<Task, Place>, b: map<Task, Cpu>, d: Cpu)
    requires CanPutBack(s, c) && d < |s.cpu|
    requires CpuPlaces(s, f, c) && CpuPlaces(s, f, d) && CpuStacks(s, b, c) && CpuStacks(s, b, d)
    ensures CpuPlaces(DoPutBack(s, c), f[s.cpu[c].current := Queue(c)], d)
    ensures CpuStacks(DoPutBack(s, c), b, d)
  {
  }

  lemma PutBackKeeps(s: Kernel, c: Cpu, f: map<Task, Place>, b: map<Task, Cpu>)
    requires Inv(s, f, b) && CanPutBack(s, c)
    ensures Inv(DoPutBack(s, c), f[s.cpu[c].current := Queue(c)], b)
  {
    var s' := DoPutBack(s, c);
    var f' := f[s.cpu[c].current := Queue(c)];
    KnownCpu(s, f, b, c);
    Known(s, f, b, s.cpu[c].current);
    forall u: Task
      ensures TaskInv(s', u, Get(f', u), Get(b, u))
    {
      Known(s, f, b, u);
      PutBackPlace(s, c, u, Get(f, u));
      PutBackStack(s, c, u, Get(f, u), Get(b, u));
      PutBackStrays(s, c, u, Get(f, u));
    }
    forall d: Cpu | d < |s.cpu|
      ensures CpuInv(s', f', b, d)
    {
      KnownCpu(s, f, b, d);
      PutBackCpu(s, c, f, b, d);
    }
    Assemble(s, s', c, f', b);
  }

  lemma PickTask(s: Kernel, c: Cpu, t: Task, u: Task, o: Option<Place>, k: Option<Cpu>)
    requires CanPick(s, c, t) && PlaceInv(s, u, o) && StackInv(s, u, o, k)
    requires u == t ==> o == Some(Queue(c))
    requires t != Idle(s, c) && ReadyOnce(s, c, t)
    ensures PlaceInv(DoPick(s, c, t), u, Put(o, u, t, Next(c)))
    ensures StackInv(DoPick(s, c, t), u, Put(o, u, t, Next(c)), k)
  {
  }

  lemma PickStrays(s: Kernel, c: Cpu, t: Task, u: Task, o: Option<Place>)
    requires CanPick(s, c, t) && NoStrays(s, u, o)
    requires u == t ==> o == Some(Queue(c))
    requires t != Idle(s, c) && ReadyOnce(s, c, t)
    ensures NoStrays(DoPick(s, c, t), u, Put(o, u, t, Next(c)))
  {
  }

  lemma PickCpu(s: Kernel, c: Cpu, t: Task, f: map<Task, Place>, b: map<Task, Cpu>, d: Cpu)
    requires CanPick(s, c, t) && d < |s.cpu|
    requires CpuPlaces(s, f, c) && CpuPlaces(s, f, d) && CpuStacks(s, b, c) && CpuStacks(s, b, d)
    requires At(f, t, Queue(c))
    ensures CpuPlaces(DoPick(s, c, t), f[t := Next(c)], d)
    ensures CpuStacks(DoPick(s, c, t), b, d)
  {
  }

  lemma PickKeeps(s: Kernel, c: Cpu, t: Task, f: map<Task, Place>, b: map<Task, Cpu>)
    requires Inv(s, f, b) && CanPick(s, c, t)
    ensures Inv(DoPick(s, c, t), f[t := Next(c)], b)
  {
    var s' := DoPick(s, c, t);
    var f' := f[t := Next(c)];
    KnownCpu(s, f, b, c);
    Known(s, f, b, t);
    forall u: Task
      ensures TaskInv(s', u, Get(f', u), Get(b, u))
    {
      Known(s, f, b, u);
      PickTask(s, c, t, u, Get(f, u), Get(b, u));
      PickStrays(s, c, t, u, Get(f, u));
    }
    forall d: Cpu | d < |s.cpu|
      ensures CpuInv(s', f', b, d)
    {
      KnownCpu(s, f, b, d);
      PickCpu(s, c, t, f, b, d);
    }
    Assemble(s, s', c, f', b);
  }

  lemma PickIdleTask(s: Kernel, c: Cpu, u: Task, o: Option<Place>, k: Option<Cpu>)
    requires CanPickIdle(s, c) && PlaceInv(s, u, o) && StackInv(s, u, o, k)
    ensures PlaceInv(DoPickIdle(s, c), u, o)
    ensures StackInv(DoPickIdle(s, c), u, o, k)
  {
  }

  lemma PickIdleCpu(s: Kernel, c: Cpu, f: map<Task, Place>, b: map<Task, Cpu>, d: Cpu)
    requires CanPickIdle(s, c) && d < |s.cpu|
    requires CpuPlaces(s, f, c) && CpuPlaces(s, f, d) && CpuStacks(s, b, c) && CpuStacks(s, b, d)
    ensures CpuPlaces(DoPickIdle(s, c), f, d)
    ensures CpuStacks(DoPickIdle(s, c), b, d)
  {
  }

  lemma PickIdleKeeps(s: Kernel, c: Cpu, f: map<Task, Place>, b: map<Task, Cpu>)
    requires Inv(s, f, b) && CanPickIdle(s, c)
    ensures Inv(DoPickIdle(s, c), f, b)
  {
    var s' := DoPickIdle(s, c);
    KnownCpu(s, f, b, c);
    forall u: Task
      ensures TaskInv(s', u, Get(f, u), Get(b, u))
    {
      Known(s, f, b, u);
      PickIdleTask(s, c, u, Get(f, u), Get(b, u));
      SameStrays(s, s', u, Get(f, u));
    }
    forall d: Cpu | d < |s.cpu|
      ensures CpuInv(s', f, b, d)
    {
      KnownCpu(s, f, b, d);
      PickIdleCpu(s, c, f, b, d);
    }
    Assemble(s, s', c, f, b);
  }

  lemma SetRunningPlace(s: Kernel, c: Cpu, u: Task, o: Option<Place>)
    requires CanSetRunning(s, c) && PlaceInv(s, u, o)
    requires u == NextTask(s, c) ==> o == Some(Home(s, c, NextTask(s, c), Next(c)))
    ensures PlaceInv(DoSetRunning(s, c), u, o)
  {
  }

  lemma SetRunningStack(s: Kernel, c: Cpu, u: Task, o: Option<Place>, k: Option<Cpu>)
    requires CanSetRunning(s, c) && StackInv(s, u, o, k)
    requires u == NextTask(s, c) ==> o == Some(Home(s, c, NextTask(s, c), Next(c)))
    ensures StackInv(DoSetRunning(s, c), u, o, k)
  {
  }

  lemma SetRunningRoles(s: Kernel, c: Cpu, f: map<Task, Place>, d: Cpu)
    requires CanSetRunning(s, c) && d < |s.cpu| && CpuPlaces(s, f, c) && CpuPlaces(s, f, d)
    ensures CpuPlaces(DoSetRunning(s, c), f, d)
  {
  }

  lemma SetRunningUses(s: Kernel, c: Cpu, b: map<Task, Cpu>, d: Cpu)
    requires CanSetRunning(s, c) && d < |s.cpu| && CpuStacks(s, b, c) && CpuStacks(s, b, d)
    ensures CpuStacks(DoSetRunning(s, c), b, d)
  {
  }

  lemma SetRunningKeeps(s: Kernel, c: Cpu, f: map<Task, Place>, b: map<Task, Cpu>)
    requires Inv(s, f, b) && CanSetRunning(s, c)
    ensures Inv(DoSetRunning(s, c), f, b)
  {
    var s' := DoSetRunning(s, c);
    KnownCpu(s, f, b, c);
    Known(s, f, b, s.cpu[c].phase.next);
    forall u: Task
      ensures TaskInv(s', u, Get(f, u), Get(b, u))
    {
      Known(s, f, b, u);
      SetRunningPlace(s, c, u, Get(f, u));
      SetRunningStack(s, c, u, Get(f, u), Get(b, u));
      SameStrays(s, s', u, Get(f, u));
    }
    forall d: Cpu | d < |s.cpu|
      ensures CpuInv(s', f, b, d)
    {
      KnownCpu(s, f, b, d);
      SetRunningRoles(s, c, f, d);
      SetRunningUses(s, c, b, d);
    }
    Assemble(s, s', c, f, b);
  }

  lemma StayPlace(s: Kernel, c: Cpu, u: Task, o: Option<Place>)
    requires CanStay(s, c) && PlaceInv(s, u, o)
    requires u == Current(s, c) ==> o == Some(Home(s, c, Current(s, c), Next(c)))
    ensures PlaceInv(DoStay(s, c), u, Put(o, u, s.cpu[c].current, Home(s, c, s.cpu[c].current, Cur(c))))
  {
  }

  lemma StayStack(s: Kernel, c: Cpu, u: Task, o: Option<Place>, k: Option<Cpu>)
    requires CanStay(s, c) && StackInv(s, u, o, k)
    requires u == Current(s, c) ==> o == Some(Home(s, c, Current(s, c), Next(c)))
    ensures StackInv(DoStay(s, c), u, Put(o, u, s.cpu[c].current, Home(s, c, s.cpu[c].current, Cur(c))), k)
  {
  }

  lemma StayRoles(s: Kernel, c: Cpu, f: map<Task, Place>, d: Cpu)
    requires CanStay(s, c) && d < |s.cpu| && CpuPlaces(s, f, c) && CpuPlaces(s, f, d)
    ensures CpuPlaces(DoStay(s, c), f[s.cpu[c].current := Home(s, c, s.cpu[c].current, Cur(c))], d)
  {
    if d != c {
      OtherRoles(s, DoStay(s, c), f, f[s.cpu[c].current := Home(s, c, s.cpu[c].current, Cur(c))], d);
    }
  }

  lemma StayUses(s: Kernel, c: Cpu, b: map<Task, Cpu>, d: Cpu)
    requires CanStay(s, c) && d < |s.cpu| && CpuStacks(s, b, c) && CpuStacks(s, b, d)
    ensures CpuStacks(DoStay(s, c), b, d)
  {
  }

  lemma StayTasks(s: Kernel, c: Cpu, f: map<Task, Place>, b: map<Task, Cpu>,
                  s': Kernel, f': map<Task, Place>)
    requires Inv(s, f, b) && CanStay(s, c)
    requires s' == DoStay(s, c) && f' == f[s.cpu[c].current := Home(s, c, s.cpu[c].current, Cur(c))]
    ensures forall u: Task :: TaskInv(s', u, Get(f', u), Get(b, u))
  {
    KnownCpu(s, f, b, c);
    Known(s, f, b, s.cpu[c].current);
    forall u: Task
      ensures TaskInv(s', u, Get(f', u), Get(b, u))
    {
      Known(s, f, b, u);
      StayPlace(s, c, u, Get(f, u));
      StayStack(s, c, u, Get(f, u), Get(b, u));
      SameStrays(s, s', u, Get(f, u));
      if Get(f, u) == Some(Next(c)) {
        NextIsNowhere(s', u, c, Cur(c));
      }
    }
  }

  lemma StayKeeps(s: Kernel, c: Cpu, f: map<Task, Place>, b: map<Task, Cpu>)
    requires Inv(s, f, b) && CanStay(s, c)
    ensures Inv(DoStay(s, c), f[s.cpu[c].current := Home(s, c, s.cpu[c].current, Cur(c))], b)
  {
    var s' := DoStay(s, c);
    var f' := f[s.cpu[c].current := Home(s, c, s.cpu[c].current, Cur(c))];
    KnownCpu(s, f, b, c);
    Known(s, f, b, s.cpu[c].current);
    StayTasks(s, c, f, b, s', f');
    forall d: Cpu | d < |s.cpu|
      ensures CpuInv(s', f', b, d)
    {
      KnownCpu(s, f, b, d);
      StayRoles(s, c, f, d);
      StayUses(s, c, b, d);
    }
    Assemble(s, s', c, f', b);
  }

  lemma SetOnCpuPlace(s: Kernel, c: Cpu, u: Task, o: Option<Place>)
    requires CanSetOnCpu(s, c) && PlaceInv(s, u, o)
    requires u == NextTask(s, c) ==> o == Some(Home(s, c, NextTask(s, c), Next(c)))
    requires NextTask(s, c) != Current(s, c)
    ensures PlaceInv(DoSetOnCpu(s, c), u, o)
  {
  }

  lemma SetOnCpuStack(s: Kernel, c: Cpu, u: Task, o: Option<Place>, k: Option<Cpu>)
    requires CanSetOnCpu(s, c) && StackInv(s, u, o, k)
    requires u == NextTask(s, c) ==> o == Some(Home(s, c, NextTask(s, c), Next(c)))
    requires NextTask(s, c) != Current(s, c)
    ensures StackInv(DoSetOnCpu(s, c), u, o, (if u == s.cpu[c].phase.next then Some(c) else k))
  {
  }

  lemma SetOnCpuRoles(s: Kernel, c: Cpu, f: map<Task, Place>, d: Cpu)
    requires CanSetOnCpu(s, c) && d < |s.cpu| && CpuPlaces(s, f, c) && CpuPlaces(s, f, d)
    ensures CpuPlaces(DoSetOnCpu(s, c), f, d)
  {
  }

  lemma SetOnCpuUses(s: Kernel, c: Cpu, b: map<Task, Cpu>, d: Cpu)
    requires CanSetOnCpu(s, c) && d < |s.cpu| && CpuStacks(s, b, c) && CpuStacks(s, b, d)
    requires Get(b, NextTask(s, c)).Some? ==> Get(b, NextTask(s, c)) == Some(c)
    ensures CpuStacks(DoSetOnCpu(s, c), b[s.cpu[c].phase.next := c], d)
  {
  }

  lemma SetOnCpuKeeps(s: Kernel, c: Cpu, f: map<Task, Place>, b: map<Task, Cpu>)
    requires Inv(s, f, b) && CanSetOnCpu(s, c)
    ensures Inv(DoSetOnCpu(s, c), f, b[s.cpu[c].phase.next := c])
  {
    var s' := DoSetOnCpu(s, c);
    var b' := b[s.cpu[c].phase.next := c];
    KnownCpu(s, f, b, c);
    Known(s, f, b, s.cpu[c].phase.next);
    forall u: Task
      ensures TaskInv(s', u, Get(f, u), Get(b', u))
    {
      Known(s, f, b, u);
      SetOnCpuPlace(s, c, u, Get(f, u));
      SetOnCpuStack(s, c, u, Get(f, u), Get(b, u));
      SameStrays(s, s', u, Get(f, u));
    }
    forall d: Cpu | d < |s.cpu|
      ensures CpuInv(s', f, b', d)
    {
      KnownCpu(s, f, b, d);
      SetOnCpuRoles(s, c, f, d);
      SetOnCpuUses(s, c, b, d);
    }
    Assemble(s, s', c, f, b');
  }

  lemma SwapCurrentTask(s: Kernel, c: Cpu, u: Task, o: Option<Place>, k: Option<Cpu>)
    requires CanSwapCurrent(s, c) && PlaceInv(s, u, o) && StackInv(s, u, o, k)
    requires u == NextTask(s, c) ==> o == Some(Home(s, c, NextTask(s, c), Next(c)))
    ensures PlaceInv(DoSwapCurrent(s, c), u, Put(o, u, s.cpu[c].phase.next, Home(s, c, s.cpu[c].phase.next, Cur(c))))
    ensures StackInv(DoSwapCurrent(s, c), u, Put(o, u, s.cpu[c].phase.next, Home(s, c, s.cpu[c].phase.next, Cur(c))), k)
  {
  }

  lemma SwapCurrentCpu(s: Kernel, c: Cpu, f: map<Task, Place>, b: map<Task, Cpu>, d: Cpu)
    requires CanSwapCurrent(s, c) && d < |s.cpu|
    requires CpuPlaces(s, f, c) && CpuPlaces(s, f, d) && CpuStacks(s, b, c) && CpuStacks(s, b, d)
    ensures CpuPlaces(DoSwapCurrent(s, c), f[s.cpu[c].phase.next := Home(s, c, s.cpu[c].phase.next, Cur(c))], d)
    ensures CpuStacks(DoSwapCurrent(s, c), b, d)
  {
  }

  lemma SwapCurrentTasks(s: Kernel, c: Cpu, f: map<Task, Place>, b: map<Task, Cpu>,
                         s': Kernel, f': map<Task, Place>)
    requires Inv(s, f, b) && CanSwapCurrent(s, c)
    requires s' == DoSwapCurrent(s, c) && f' == f[s.cpu[c].phase.next := Home(s, c, s.cpu[c].phase.next, Cur(c))]
    ensures forall u: Task :: TaskInv(s', u, Get(f', u), Get(b, u))
  {
    KnownCpu(s, f, b, c);
    Known(s, f, b, s.cpu[c].phase.next);
    Known(s, f, b, s.cpu[c].current);
    forall u: Task
      ensures TaskInv(s', u, Get(f', u), Get(b, u))
    {
      Known(s, f, b, u);
      SwapCurrentTask(s, c, u, Get(f, u), Get(b, u));
      SameStrays(s, s', u, Get(f, u));
      if Get(f, u) == Some(Next(c)) {
        NextIsNowhere(s', u, c, Cur(c));
      }
    }
  }

  lemma SwapCurrentKeeps(s: Kernel, c: Cpu, f: map<Task, Place>, b: map<Task, Cpu>)
    requires Inv(s, f, b) && CanSwapCurrent(s, c)
    ensures Inv(DoSwapCurrent(s, c), f[s.cpu[c].phase.next := Home(s, c, s.cpu[c].phase.next, Cur(c))], b)
  {
    var s' := DoSwapCurrent(s, c);
    var f' := f[s.cpu[c].phase.next := Home(s, c, s.cpu[c].phase.next, Cur(c))];
    KnownCpu(s, f, b, c);
    Known(s, f, b, s.cpu[c].phase.next);
    Known(s, f, b, s.cpu[c].current);
    SwapCurrentTasks(s, c, f, b, s', f');
    forall d: Cpu | d < |s.cpu|
      ensures CpuInv(s', f', b, d)
    {
      KnownCpu(s, f, b, d);
      SwapCurrentCpu(s, c, f, b, d);
    }
    Assemble(s, s', c, f', b);
  }

  lemma ClearPrevPlace(s: Kernel, c: Cpu, u: Task, o: Option<Place>)
    requires CanClearPrev(s, c) && PlaceInv(s, u, o)
    ensures PlaceInv(DoClearPrev(s, c), u, o)
  {
  }

  lemma ClearPrevStack(s: Kernel, c: Cpu, u: Task, o: Option<Place>, k: Option<Cpu>)
    requires CanClearPrev(s, c) && StackInv(s, u, o, k)
    ensures StackInv(DoClearPrev(s, c), u, o, (if u == s.cpu[c].phase.prev then None else k))
  {
  }

  lemma ClearPrevRoles(s: Kernel, c: Cpu, f: map<Task, Place>, d: Cpu)
    requires CanClearPrev(s, c) && d < |s.cpu| && CpuPlaces(s, f, c) && CpuPlaces(s, f, d)
    ensures CpuPlaces(DoClearPrev(s, c), f, d)
  {
  }

  lemma ClearPrevUses(s: Kernel, c: Cpu, b: map<Task, Cpu>, d: Cpu)
    requires CanClearPrev(s, c) && d < |s.cpu| && CpuStacks(s, b, c) && CpuStacks(s, b, d)
    requires PrevTask(s, c) != Current(s, c)
    ensures CpuStacks(DoClearPrev(s, c), b - {s.cpu[c].phase.prev}, d)
  {
  }

  lemma ClearPrevKeeps(s: Kernel, c: Cpu, f: map<Task, Place>, b: map<Task, Cpu>)
    requires Inv(s, f, b) && CanClearPrev(s, c)
    ensures Inv(DoClearPrev(s, c), f, b - {s.cpu[c].phase.prev})
  {
    var s' := DoClearPrev(s, c);
    var b' := b - {s.cpu[c].phase.prev};
    KnownCpu(s, f, b, c);
    Known(s, f, b, s.cpu[c].phase.prev);
    Known(s, f, b, s.cpu[c].current);
    forall u: Task
      ensures TaskInv(s', u, Get(f, u), Get(b', u))
    {
      Known(s, f, b, u);
      ClearPrevPlace(s, c, u, Get(f, u));
      ClearPrevStack(s, c, u, Get(f, u), Get(b, u));
      SameStrays(s, s', u, Get(f, u));
    }
    forall d: Cpu | d < |s.cpu|
      ensures CpuInv(s', f, b', d)
    {
      KnownCpu(s, f, b, d);
      ClearPrevRoles(s, c, f, d);
      ClearPrevUses(s, c, b, d);
    }
    Assemble(s, s', c, f, b');
  }

  lemma BlockOwnPlace(s: Kernel, c: Cpu, w: WaitQueue)
    requires CanBlock(s, c, w) && PlaceInv(s, s.cpu[c].current, Some(Cur(c)))
    requires Current(s, c) !in Waiters(s, w)
    ensures PlaceInv(DoBlock(s, c, w), s.cpu[c].current, Some(Waiting(w)))
  {
  }

  /** Another task and its CPUs, as far as its place depends on them, are as before. */
  lemma BlockOther(s: Kernel, c: Cpu, w: WaitQueue, u: Task, s': Kernel)
    requires CanBlock(s, c, w) && u != s.cpu[c].current && s' == DoBlock(s, c, w)
    ensures (u in s'.tasks <==> u in s.tasks) && (u in s.tasks ==> s'.tasks[u] == s.tasks[u])
    ensures |s'.cpu| == |s.cpu| && s'.closure == s.closure && s'.freed == s.freed
    ensures forall v :: Waiters(s', v)[u] == Waiters(s, v)[u]
    ensures forall d: Cpu :: d < |s.cpu| ==> s'.cpu[d] == if d == c then s.cpu[c].(phase := Resched) else s.cpu[d]
  {
  }

  lemma BlockOtherPlace(s: Kernel, c: Cpu, w: WaitQueue, u: Task, o: Option<Place>)
    requires CanBlock(s, c, w) && PlaceInv(s, u, o) && u != s.cpu[c].current
    ensures PlaceInv(DoBlock(s, c, w), u, o)
  {
    BlockOther(s, c, w, u, DoBlock(s, c, w));
  }

  lemma BlockPlace(s: Kernel, c: Cpu, w: WaitQueue, u: Task, o: Option<Place>)
    requires CanBlock(s, c, w) && PlaceInv(s, u, o)
    requires u == Current(s, c) ==> o == Some(Cur(c))
    requires Current(s, c) !in Waiters(s, w)
    ensures PlaceInv(DoBlock(s, c, w), u, Put(o, u, s.cpu[c].current, Waiting(w)))
  {
    if u == s.cpu[c].current {
      BlockOwnPlace(s, c, w);
    } else {
      BlockOtherPlace(s, c, w, u, o);
    }
  }

  lemma BlockStack(s: Kernel, c: Cpu, w: WaitQueue, u: Task, o: Option<Place>, k: Option<Cpu>)
    requires CanBlock(s, c, w) && StackInv(s, u, o, k)
    requires u == Current(s, c) ==> o == Some(Cur(c))
    requires Current(s, c) !in Waiters(s, w)
    ensures StackInv(DoBlock(s, c, w), u, Put(o, u, s.cpu[c].current, Waiting(w)), k)
  {
  }

  lemma BlockStrays(s: Kernel, c: Cpu, w: WaitQueue, u: Task, o: Option<Place>)
    requires CanBlock(s, c, w) && NoStrays(s, u, o)
    requires u == Current(s, c) ==> o == Some(Cur(c))
    ensures NoStrays(DoBlock(s, c, w), u, Put(o, u, s.cpu[c].current, Waiting(w)))
  {
  }

  lemma BlockRoles(s: Kernel, c: Cpu, w: WaitQueue, f: map<Task, Place>, d: Cpu)
    requires CanBlock(s, c, w) && d < |s.cpu| && CpuPlaces(s, f, c) && CpuPlaces(s, f, d)
    ensures CpuPlaces(DoBlock(s, c, w), f[s.cpu[c].current := Waiting(w)], d)
  {
    if d != c {
      OtherRoles(s, DoBlock(s, c, w), f, f[s.cpu[c].current := Waiting(w)], d);
    }
  }

  lemma BlockUses(s: Kernel, c: Cpu, w: WaitQueue, b: map<Task, Cpu>, d: Cpu)
    requires CanBlock(s, c, w) && d < |s.cpu| && CpuStacks(s, b, c) && CpuStacks(s, b, d)
    ensures CpuStacks(DoBlock(s, c, w), b, d)
  {
  }

  lemma BlockTasks(s: Kernel, c: Cpu, w: WaitQueue, f: map<Task, Place>, b: map<Task, Cpu>,
                   s': Kernel, f': map<Task, Place>)
    requires Inv(s, f, b) && CanBlock(s, c, w)
    requires s' == DoBlock(s, c, w) && f' == f[s.cpu[c].current := Waiting(w)]
    ensures forall u: Task :: TaskInv(s', u, Get(f', u), Get(b, u))
  {
    KnownCpu(s, f, b, c);
    Known(s, f, b, s.cpu[c].current);
    forall u: Task
      ensures TaskInv(s', u, Get(f', u), Get(b, u))
    {
      Known(s, f, b, u);
      BlockPlace(s, c, w, u, Get(f, u));
      BlockStack(s, c, w, u, Get(f, u), Get(b, u));
      BlockStrays(s, c, w, u, Get(f, u));
    }
  }

  lemma BlockKeeps(s: Kernel, c: Cpu, w: WaitQueue, f: map<Task, Place>, b: map<Task, Cpu>)
    requires Inv(s, f, b) && CanBlock(s, c, w)
    ensures Inv(DoBlock(s, c, w), f[s.cpu[c].current := Waiting(w)], b)
  {
    var s' := DoBlock(s, c, w);
    var f' := f[s.cpu[c].current := Waiting(w)];
    KnownCpu(s, f, b, c);
    Known(s, f, b, s.cpu[c].current);
    BlockTasks(s, c, w, f, b, s', f');
    forall d: Cpu | d < |s.cpu|
      ensures CpuInv(s', f', b, d)
    {
      KnownCpu(s, f, b, d);
      BlockRoles(s, c, w, f, d);
      BlockUses(s, c, w, b, d);
    }
    Assemble(s, s', c, f', b);
  }

  lemma NotifyPlace(s: Kernel, c: Cpu, w: WaitQueue, t: Task, target: Cpu, u: Task, o: Option<Place>)
    requires CanNotify(s, c, w, t, target) && PlaceInv(s, u, o)
    requires u == t ==> o == Some(Waiting(w))
    requires Waiters(s, w)[t] == 1
    requires t != Current(s, c)
    ensures PlaceInv(DoNotify(s, c, w, t, target), u, Put(o, u, t, Hand(c)))
  {
  }

  lemma NotifyStack(s: Kernel, c: Cpu, w: WaitQueue, t: Task, target: Cpu, u: Task, o: Option<Place>, k: Option<Cpu>)
    requires CanNotify(s, c, w, t, target) && StackInv(s, u, o, k)
    requires u == t ==> o == Some(Waiting(w))
    requires Waiters(s, w)[t] == 1
    requires t != Current(s, c)
    ensures StackInv(DoNotify(s, c, w, t, target), u, Put(o, u, t, Hand(c)), k)
  {
  }

  lemma NotifyStrays(s: Kernel, c: Cpu, w: WaitQueue, t: Task, target: Cpu, u: Task, o: Option<Place>)
    requires CanNotify(s, c, w, t, target) && NoStrays(s, u, o)
    requires u == t ==> o == Some(Waiting(w))
    requires Waiters(s, w)[t] == 1
    ensures NoStrays(DoNotify(s, c, w, t, target), u, Put(o, u, t, Hand(c)))
  {
  }

  lemma NotifyRoles(s: Kernel, c: Cpu, w: WaitQueue, t: Task, target: Cpu, f: map<Task, Place>, d: Cpu)
    requires CanNotify(s, c, w, t, target) && d < |s.cpu| && CpuPlaces(s, f, c) && CpuPlaces(s, f, d)
    requires At(f, t, Waiting(w))
    ensures CpuPlaces(DoNotify(s, c, w, t, target), f[t := Hand(c)], d)
  {
    if d != c {
      OtherRoles(s, DoNotify(s, c, w, t, target), f, f[t := Hand(c)], d);
    }
  }

  lemma NotifyUses(s: Kernel, c: Cpu, w: WaitQueue, t: Task, target: Cpu, b: map<Task, Cpu>, d: Cpu)
    requires CanNotify(s, c, w, t, target) && d < |s.cpu| && CpuStacks(s, b, c) && CpuStacks(s, b, d)
    ensures CpuStacks(DoNotify(s, c, w, t, target), b, d)
  {
  }

  lemma NotifyTasks(s: Kernel, c: Cpu, w: WaitQueue, t: Task, target: Cpu, f: map<Task, Place>, b: map<Task, Cpu>,
                    s': Kernel, f': map<Task, Place>)
    requires Inv(s, f, b) && CanNotify(s, c, w, t, target)
    requires s' == DoNotify(s, c, w, t, target) && f' == f[t := Hand(c)]
    ensures forall u: Task :: TaskInv(s', u, Get(f', u), Get(b, u))
  {
    KnownCpu(s, f, b, c);
    Known(s, f, b, t);
    forall u: Task
      ensures TaskInv(s', u, Get(f', u), Get(b, u))
    {
      Known(s, f, b, u);
      NotifyPlace(s, c, w, t, target, u, Get(f, u));
      NotifyStack(s, c, w, t, target, u, Get(f, u), Get(b, u));
      NotifyStrays(s, c, w, t, target, u, Get(f, u));
    }
  }

  lemma NotifyKeeps(s: Kernel, c: Cpu, w: WaitQueue, t: Task, target: Cpu, f: map<Task, Place>, b: map<Task, Cpu>)
    requires Inv(s, f, b) && CanNotify(s, c, w, t, target)
    ensures Inv(DoNotify(s, c, w, t, target), f[t := Hand(c)], b)
  {
    var s' := DoNotify(s, c, w, t, target);
    var f' := f[t := Hand(c)];
    KnownCpu(s, f, b, c);
    Known(s, f, b, t);
    NotifyTasks(s, c, w, t, target, f, b, s', f');
    forall d: Cpu | d < |s.cpu|
      ensures CpuInv(s', f', b, d)
    {
      KnownCpu(s, f, b, d);
      NotifyRoles(s, c, w, t, target, f, d);
      NotifyUses(s, c, w, t, target, b, d);
    }
    Assemble(s, s', c, f', b);
  }

  lemma WakeCasTask(s: Kernel, c: Cpu, u: Task, o: Option<Place>, k: Option<Cpu>)
    requires CanWakeCas(s, c) && PlaceInv(s, u, o) && StackInv(s, u, o, k)
    requires u == HandTask(s, c) ==> o == Some(Hand(c))
    requires InState(s, HandTask(s, c), Blocked)
    ensures PlaceInv(DoWakeCas(s, c), u, o)
    ensures StackInv(DoWakeCas(s, c), u, o, k)
  {
  }

  lemma WakeCasRoles(s: Kernel, c: Cpu, f: map<Task, Place>, d: Cpu)
    requires CanWakeCas(s, c) && d < |s.cpu| && CpuPlaces(s, f, c) && CpuPlaces(s, f, d)
    ensures CpuPlaces(DoWakeCas(s, c), f, d)
  {
    if d != c {
      OtherRoles(s, DoWakeCas(s, c), f, f, d);
    }
  }

  lemma WakeCasUses(s: Kernel, c: Cpu, b: map<Task, Cpu>, d: Cpu)
    requires CanWakeCas(s, c) && d < |s.cpu| && CpuStacks(s, b, c) && CpuStacks(s, b, d)
    ensures CpuStacks(DoWakeCas(s, c), b, d)
  {
  }

  lemma WakeCasKeeps(s: Kernel, c: Cpu, f: map<Task, Place>, b: map<Task, Cpu>)
    requires Inv(s, f, b) && CanWakeCas(s, c)
    ensures Inv(DoWakeCas(s, c), f, b)
  {
    var s' := DoWakeCas(s, c);
    KnownCpu(s, f, b, c);
    Known(s, f, b, s.cpu[c].phase.task);
    forall u: Task
      ensures TaskInv(s', u, Get(f, u), Get(b, u))
    {
      Known(s, f, b, u);
      WakeCasTask(s, c, u, Get(f, u), Get(b, u));
      SameStrays(s, s', u, Get(f, u));
    }
    forall d: Cpu | d < |s.cpu|
      ensures CpuInv(s', f, b, d)
    {
      KnownCpu(s, f, b, d);
      WakeCasRoles(s, c, f, d);
      WakeCasUses(s, c, b, d);
    }
    Assemble(s, s', c, f, b);
  }

  lemma SpinDonePlace(s: Kernel, c: Cpu, u: Task, o: Option<Place>)
    requires CanSpinDone(s, c) && PlaceInv(s, u, o)
    requires u == HandTask(s, c) ==> o == Some(Hand(c))
    requires !InReady(s, TargetCpu(s, c), HandTask(s, c))
    requires Allowed(s, HandTask(s, c), TargetCpu(s, c))
    ensures PlaceInv(DoSpinDone(s, c), u, Put(o, u, s.cpu[c].phase.task, Queue(s.cpu[c].phase.target)))
  {
  }

  lemma SpinDoneStack(s: Kernel, c: Cpu, u: Task, o: Option<Place>, k: Option<Cpu>)
    requires CanSpinDone(s, c) && StackInv(s, u, o, k)
    requires u == HandTask(s, c) ==> o == Some(Hand(c))
    requires !InReady(s, TargetCpu(s, c), HandTask(s, c))
    requires Allowed(s, HandTask(s, c), TargetCpu(s, c))
    ensures StackInv(DoSpinDone(s, c), u, Put(o, u, s.cpu[c].phase.task, Queue(s.cpu[c].phase.target)), k)
  {
  }

  lemma SpinDoneStrays(s: Kernel, c: Cpu, u: Task, o: Option<Place>)
    requires CanSpinDone(s, c) && NoStrays(s, u, o)
    requires u == HandTask(s, c) ==> o == Some(Hand(c))
    ensures NoStrays(DoSpinDone(s, c), u, Put(o, u, s.cpu[c].phase.task, Queue(s.cpu[c].phase.target)))
  {
  }

  lemma SpinDoneRoles(s: Kernel, c: Cpu, f: map<Task, Place>, d: Cpu)
    requires CanSpinDone(s, c) && d < |s.cpu| && CpuPlaces(s, f, c) && CpuPlaces(s, f, d)
    ensures CpuPlaces(DoSpinDone(s, c), f[s.cpu[c].phase.task := Queue(s.cpu[c].phase.target)], d)
  {
    if d != c {
      OtherRoles(s, DoSpinDone(s, c), f, f[s.cpu[c].phase.task := Queue(s.cpu[c].phase.target)], d);
    }
  }

  lemma SpinDoneUses(s: Kernel, c: Cpu, b: map<Task, Cpu>, d: Cpu)
    requires CanSpinDone(s, c) && d < |s.cpu| && CpuStacks(s, b, c) && CpuStacks(s, b, d)
    ensures CpuStacks(DoSpinDone(s, c), b, d)
  {
  }

  lemma SpinDoneKeeps(s: Kernel, c: Cpu, f: map<Task, Place>, b: map<Task, Cpu>)
    requires Inv(s, f, b) && CanSpinDone(s, c)
    ensures Inv(DoSpinDone(s, c), f[s.cpu[c].phase.task := Queue(s.cpu[c].phase.target)], b)
  {
    var s' := DoSpinDone(s, c);
    var f' := f[s.cpu[c].phase.task := Queue(s.cpu[c].phase.target)];
    KnownCpu(s, f, b, c);
    Known(s, f, b, s.cpu[c].phase.task);
    forall u: Task
      ensures TaskInv(s', u, Get(f', u), Get(b, u))
    {
      Known(s, f, b, u);
      SpinDonePlace(s, c, u, Get(f, u));
      SpinDoneStack(s, c, u, Get(f, u), Get(b, u));
      SpinDoneStrays(s, c, u, Get(f, u));
    }
    forall d: Cpu | d < |s.cpu|
      ensures CpuInv(s', f', b, d)
    {
      KnownCpu(s, f, b, d);
      SpinDoneRoles(s, c, f, d);
      SpinDoneUses(s, c, b, d);
    }
    Assemble(s, s', c, f', b);
  }

  lemma ExitPlace(s: Kernel, c: Cpu, u: Task, o: Option<Place>)
    requires CanExit(s, c) && PlaceInv(s, u, o)
    requires u == Current(s, c) ==> o == Some(Cur(c))
    ensures PlaceInv(DoExit(s, c), u, o)
  {
  }

  lemma ExitStack(s: Kernel, c: Cpu, u: Task, o: Option<Place>, k: Option<Cpu>)
    requires CanExit(s, c) && StackInv(s, u, o, k)
    requires u == Current(s, c) ==> o == Some(Cur(c))
    ensures StackInv(DoExit(s, c), u, o, k)
  {
  }

  lemma ExitRoles(s: Kernel, c: Cpu, f: map<Task, Place>, d: Cpu)
    requires CanExit(s, c) && d < |s.cpu| && CpuPlaces(s, f, c) && CpuPlaces(s, f, d)
    ensures CpuPlaces(DoExit(s, c), f, d)
  {
  }

  lemma ExitUses(s: Kernel, c: Cpu, b: map<Task, Cpu>, d: Cpu)
    requires CanExit(s, c) && d < |s.cpu| && CpuStacks(s, b, c) && CpuStacks(s, b, d)
    ensures CpuStacks(DoExit(s, c), b, d)
  {
  }

  lemma ExitKeeps(s: Kernel, c: Cpu, f: map<Task, Place>, b: map<Task, Cpu>)
    requires Inv(s, f, b) && CanExit(s, c)
    ensures Inv(DoExit(s, c), f, b)
  {
    var s' := DoExit(s, c);
    KnownCpu(s, f, b, c);
    Known(s, f, b, s.cpu[c].current);
    forall u: Task
      ensures TaskInv(s', u, Get(f, u), Get(b, u))
    {
      Known(s, f, b, u);
      ExitPlace(s, c, u, Get(f, u));
      ExitStack(s, c, u, Get(f, u), Get(b, u));
      SameStrays(s, s', u, Get(f, u));
    }
    forall d: Cpu | d < |s.cpu|
      ensures CpuInv(s', f, b, d)
    {
      KnownCpu(s, f, b, d);
      ExitRoles(s, c, f, d);
      ExitUses(s, c, b, d);
    }
    Assemble(s, s', c, f, b);
  }

  lemma JoinersDoneTask(s: Kernel, c: Cpu, u: Task, o: Option<Place>, k: Option<Cpu>)
    requires CanJoinersDone(s, c) && PlaceInv(s, u, o) && StackInv(s, u, o, k)
    ensures PlaceInv(DoJoinersDone(s, c), u, o)
    ensures StackInv(DoJoinersDone(s, c), u, o, k)
  {
  }

  lemma JoinersDoneCpu(s: Kernel, c: Cpu, f: map<Task, Place>, b: map<Task, Cpu>, d: Cpu)
    requires CanJoinersDone(s, c) && d < |s.cpu|
    requires CpuPlaces(s, f, c) && CpuPlaces(s, f, d) && CpuStacks(s, b, c) && CpuStacks(s, b, d)
    ensures CpuPlaces(DoJoinersDone(s, c), f, d)
    ensures CpuStacks(DoJoinersDone(s, c), b, d)
  {
  }

  lemma JoinersDoneKeeps(s: Kernel, c: Cpu, f: map<Task, Place>, b: map<Task, Cpu>)
    requires Inv(s, f, b) && CanJoinersDone(s, c)
    ensures Inv(DoJoinersDone(s, c), f, b)
  {
    var s' := DoJoinersDone(s, c);
    KnownCpu(s, f, b, c);
    forall u: Task
      ensures TaskInv(s', u, Get(f, u), Get(b, u))
    {
      Known(s, f, b, u);
      JoinersDoneTask(s, c, u, Get(f, u), Get(b, u));
      SameStrays(s, s', u, Get(f, u));
    }
    forall d: Cpu | d < |s.cpu|
      ensures CpuInv(s', f, b, d)
    {
      KnownCpu(s, f, b, d);
      JoinersDoneCpu(s, c, f, b, d);
    }
    Assemble(s, s', c, f, b);
  }

  lemma PushExitedTask(s: Kernel, c: Cpu, u: Task, o: Option<Place>, k: Option<Cpu>)
    requires CanPushExited(s, c) && PlaceInv(s, u, o) && StackInv(s, u, o, k)
    requires u == Current(s, c) ==> o == Some(Cur(c))
    requires !InGrave(s, c, Current(s, c))
    requires Current(s, c) !in s.unsettled
    ensures PlaceInv(DoPushExited(s, c), u, Put(o, u, s.cpu[c].current, Grave(c)))
    ensures StackInv(DoPushExited(s, c), u, Put(o, u, s.cpu[c].current, Grave(c)), k)
  {
  }

  lemma PushExitedStrays(s: Kernel, c: Cpu, u: Task, o: Option<Place>)
    requires CanPushExited(s, c) && NoStrays(s, u, o)
    requires u == Current(s, c) ==> o == Some(Cur(c))
    ensures NoStrays(DoPushExited(s, c), u, Put(o, u, s.cpu[c].current, Grave(c)))
  {
  }

  lemma PushExitedCpu(s: Kernel, c: Cpu, f: map<Task, Place>, b: map<Task, Cpu>, d: Cpu)
    requires CanPushExited(s, c) && d < |s.cpu|
    requires CpuPlaces(s, f, c) && CpuPlaces(s, f, d) && CpuStacks(s, b, c) && CpuStacks(s, b, d)
    ensures CpuPlaces(DoPushExited(s, c), f[s.cpu[c].current := Grave(c)], d)
    ensures CpuStacks(DoPushExited(s, c), b, d)
  {
  }

  lemma PushExitedKeeps(s: Kernel, c: Cpu, f: map<Task, Place>, b: map<Task, Cpu>)
    requires Inv(s, f, b) && CanPushExited(s, c)
    ensures Inv(DoPushExited(s, c), f[s.cpu[c].current := Grave(c)], b)
  {
    var s' := DoPushExited(s, c);
    var f' := f[s.cpu[c].current := Grave(c)];
    KnownCpu(s, f, b, c);
    Known(s, f, b, s.cpu[c].current);
    forall u: Task
      ensures TaskInv(s', u, Get(f', u), Get(b, u))
    {
      Known(s, f, b, u);
      PushExitedTask(s, c, u, Get(f, u), Get(b, u));
      PushExitedStrays(s, c, u, Get(f, u));
    }
    forall d: Cpu | d < |s.cpu|
      ensures CpuInv(s', f', b, d)
    {
      KnownCpu(s, f, b, d);
      PushExitedCpu(s, c, f, b, d);
    }
    Assemble(s, s', c, f', b);
  }

  lemma GcNotWaitingTask(s: Kernel, c: Cpu, u: Task, o: Option<Place>, k: Option<Cpu>)
    requires CanGcNotWaiting(s, c) && PlaceInv(s, u, o) && StackInv(s, u, o, k)
    ensures PlaceInv(DoGcNotWaiting(s, c), u, o)
    ensures StackInv(DoGcNotWaiting(s, c), u, o, k)
  {
  }

  lemma GcNotWaitingCpu(s: Kernel, c: Cpu, f: map<Task, Place>, b: map<Task, Cpu>, d: Cpu)
    requires CanGcNotWaiting(s, c) && d < |s.cpu|
    requires CpuPlaces(s, f, c) && CpuPlaces(s, f, d) && CpuStacks(s, b, c) && CpuStacks(s, b, d)
    ensures CpuPlaces(DoGcNotWaiting(s, c), f, d)
    ensures CpuStacks(DoGcNotWaiting(s, c), b, d)
  {
  }

  lemma GcNotWaitingKeeps(s: Kernel, c: Cpu, f: map<Task, Place>, b: map<Task, Cpu>)
    requires Inv(s, f, b) && CanGcNotWaiting(s, c)
    ensures Inv(DoGcNotWaiting(s, c), f, b)
  {
    var s' := DoGcNotWaiting(s, c);
    KnownCpu(s, f, b, c);
    forall u: Task
      ensures TaskInv(s', u, Get(f, u), Get(b, u))
    {
      Known(s, f, b, u);
      GcNotWaitingTask(s, c, u, Get(f, u), Get(b, u));
      SameStrays(s, s', u, Get(f, u));
    }
    forall d: Cpu | d < |s.cpu|
      ensures CpuInv(s', f, b, d)
    {
      KnownCpu(s, f, b, d);
      GcNotWaitingCpu(s, c, f, b, d);
    }
    Assemble(s, s', c, f, b);
  }

  lemma GcTakeTask(s: Kernel, c: Cpu, t: Task, u: Task, o: Option<Place>, k: Option<Cpu>)
    requires CanGcTake(s, c, t) && PlaceInv(s, u, o) && StackInv(s, u, o, k)
    requires u == t ==> o == Some(Grave(c))
    requires ExitedOnce(s, c, t)
    ensures PlaceInv(DoGcTake(s, c, t), u, o)
    ensures StackInv(DoGcTake(s, c, t), u, o, k)
  {
  }

  lemma GcTakeStrays(s: Kernel, c: Cpu, t: Task, u: Task, o: Option<Place>)
    requires CanGcTake(s, c, t) && NoStrays(s, u, o)
    requires u == t ==> o == Some(Grave(c))
    requires ExitedOnce(s, c, t)
    ensures NoStrays(DoGcTake(s, c, t), u, o)
  {
  }

  lemma GcTakeCpu(s: Kernel, c: Cpu, t: Task, f: map<Task, Place>, b: map<Task, Cpu>, d: Cpu)
    requires CanGcTake(s, c, t) && d < |s.cpu|
    requires CpuPlaces(s, f, c) && CpuPlaces(s, f, d) && CpuStacks(s, b, c) && CpuStacks(s, b, d)
    requires At(f, t, Grave(c))
    ensures CpuPlaces(DoGcTake(s, c, t), f, d)
    ensures CpuStacks(DoGcTake(s, c, t), b, d)
  {
  }

  lemma GcTakeKeeps(s: Kernel, c: Cpu, t: Task, f: map<Task, Place>, b: map<Task, Cpu>)
    requires Inv(s, f, b) && CanGcTake(s, c, t)
    ensures Inv(DoGcTake(s, c, t), f, b)
  {
    var s' := DoGcTake(s, c, t);
    KnownCpu(s, f, b, c);
    Known(s, f, b, t);
    forall u: Task
      ensures TaskInv(s', u, Get(f, u), Get(b, u))
    {
      Known(s, f, b, u);
      GcTakeTask(s, c, t, u, Get(f, u), Get(b, u));
      GcTakeStrays(s, c, t, u, Get(f, u));
    }
    forall d: Cpu | d < |s.cpu|
      ensures CpuInv(s', f, b, d)
    {
      KnownCpu(s, f, b, d);
      GcTakeCpu(s, c, t, f, b, d);
    }
    Assemble(s, s', c, f, b);
  }

  lemma GcReturnTask(s: Kernel, c: Cpu, u: Task, o: Option<Place>, k: Option<Cpu>)
    requires CanGcReturn(s, c) && PlaceInv(s, u, o) && StackInv(s, u, o, k)
    requires u == GcTask(s, c) ==> o == Some(Grave(c))
    requires !InExited(s, c, GcTask(s, c))
    ensures PlaceInv(DoGcReturn(s, c), u, o)
    ensures StackInv(DoGcReturn(s, c), u, o, k)
  {
  }

  lemma GcReturnStrays(s: Kernel, c: Cpu, u: Task, o: Option<Place>)
    requires CanGcReturn(s, c) && NoStrays(s, u, o)
    requires u == GcTask(s, c) ==> o == Some(Grave(c))
    ensures NoStrays(DoGcReturn(s, c), u, o)
  {
  }

  lemma GcReturnCpu(s: Kernel, c: Cpu, f: map<Task, Place>, b: map<Task, Cpu>, d: Cpu)
    requires CanGcReturn(s, c) && d < |s.cpu|
    requires CpuPlaces(s, f, c) && CpuPlaces(s, f, d) && CpuStacks(s, b, c) && CpuStacks(s, b, d)
    ensures CpuPlaces(DoGcReturn(s, c), f, d)
    ensures CpuStacks(DoGcReturn(s, c), b, d)
  {
  }

  lemma GcReturnKeeps(s: Kernel, c: Cpu, f: map<Task, Place>, b: map<Task, Cpu>)
    requires Inv(s, f, b) && CanGcReturn(s, c)
    ensures Inv(DoGcReturn(s, c), f, b)
  {
    var s' := DoGcReturn(s, c);
    KnownCpu(s, f, b, c);
    Known(s, f, b, s.cpu[c].gcHand.value);
    forall u: Task
      ensures TaskInv(s', u, Get(f, u), Get(b, u))
    {
      Known(s, f, b, u);
      GcReturnTask(s, c, u, Get(f, u), Get(b, u));
      GcReturnStrays(s, c, u, Get(f, u));
    }
    forall d: Cpu | d < |s.cpu|
      ensures CpuInv(s', f, b, d)
    {
      KnownCpu(s, f, b, d);
      GcReturnCpu(s, c, f, b, d);
    }
    Assemble(s, s', c, f, b);
  }

  lemma GcDropTask(s: Kernel, c: Cpu, u: Task, o: Option<Place>, k: Option<Cpu>)
    requires CanGcDrop(s, c) && PlaceInv(s, u, o) && StackInv(s, u, o, k)
    requires u == GcTask(s, c) ==> o == Some(Grave(c))
    requires !InExited(s, c, GcTask(s, c))
    ensures PlaceInv(DoGcDrop(s, c), u, Put(o, u, s.cpu[c].gcHand.value, Freed))
    ensures StackInv(DoGcDrop(s, c), u, Put(o, u, s.cpu[c].gcHand.value, Freed), k)
  {
    assert !Holds(s, CurrentRef(c), s.cpu[c].gcHand.value);
  }

  lemma GcDropStrays(s: Kernel, c: Cpu, u: Task, o: Option<Place>)
    requires CanGcDrop(s, c) && NoStrays(s, u, o)
    requires u == GcTask(s, c) ==> o == Some(Grave(c))
    requires !InExited(s, c, GcTask(s, c))
    ensures NoStrays(DoGcDrop(s, c), u, Put(o, u, s.cpu[c].gcHand.value, Freed))
  {
    assert !Holds(s, Handle, s.cpu[c].gcHand.value);
  }

  lemma GcDropCpu(s: Kernel, c: Cpu, f: map<Task, Place>, b: map<Task, Cpu>, d: Cpu)
    requires CanGcDrop(s, c) && d < |s.cpu|
    requires CpuPlaces(s, f, c) && CpuPlaces(s, f, d) && CpuStacks(s, b, c) && CpuStacks(s, b, d)
    ensures CpuPlaces(DoGcDrop(s, c), f[s.cpu[c].gcHand.value := Freed], d)
    ensures CpuStacks(DoGcDrop(s, c), b, d)
  {
  }

  lemma GcDropKeeps(s: Kernel, c: Cpu, f: map<Task, Place>, b: map<Task, Cpu>)
    requires Inv(s, f, b) && CanGcDrop(s, c)
    ensures Inv(DoGcDrop(s, c), f[s.cpu[c].gcHand.value := Freed], b)
  {
    var s' := DoGcDrop(s, c);
    var f' := f[s.cpu[c].gcHand.value := Freed];
    KnownCpu(s, f, b, c);
    Known(s, f, b, s.cpu[c].gcHand.value);
    forall u: Task
      ensures TaskInv(s', u, Get(f', u), Get(b, u))
    {
      Known(s, f, b, u);
      GcDropTask(s, c, u, Get(f, u), Get(b, u));
      GcDropStrays(s, c, u, Get(f, u));
    }
    forall d: Cpu | d < |s.cpu|
      ensures CpuInv(s', f', b, d)
    {
      KnownCpu(s, f, b, d);
      GcDropCpu(s, c, f, b, d);
    }
    Assemble(s, s', c, f', b);
  }

  lemma SetAffinityTask(s: Kernel, c: Cpu, mask: set<Cpu>, u: Task, o: Option<Place>, k: Option<Cpu>)
    requires CanSetAffinity(s, c, mask) && PlaceInv(s, u, o) && StackInv(s, u, o, k)
    requires u == Current(s, c) ==> o == Some(Cur(c))
    ensures PlaceInv(DoSetAffinity(s, c, mask), u, o)
    ensures StackInv(DoSetAffinity(s, c, mask), u, o, k)
  {
  }

  lemma SetAffinityCpu(s: Kernel, c: Cpu, mask: set<Cpu>, f: map<Task, Place>, b: map<Task, Cpu>, d: Cpu)
    requires CanSetAffinity(s, c, mask) && d < |s.cpu|
    requires CpuPlaces(s, f, c) && CpuPlaces(s, f, d) && CpuStacks(s, b, c) && CpuStacks(s, b, d)
    requires Current(s, c) == GcOf(s, d) ==> c == d
    requires Current(s, c) != Idle(s, d)
    requires !IsHand(s, d, Current(s, c))
    ensures CpuPlaces(DoSetAffinity(s, c, mask), f, d)
    ensures CpuStacks(DoSetAffinity(s, c, mask), b, d)
  {
  }

  lemma SetAffinityKeeps(s: Kernel, c: Cpu, mask: set<Cpu>, f: map<Task, Place>, b: map<Task, Cpu>)
    requires Inv(s, f, b) && CanSetAffinity(s, c, mask)
    ensures Inv(DoSetAffinity(s, c, mask), f, b)
  {
    var s' := DoSetAffinity(s, c, mask);
    KnownCpu(s, f, b, c);
    Known(s, f, b, s.cpu[c].current);
    forall u: Task
      ensures TaskInv(s', u, Get(f, u), Get(b, u))
    {
      Known(s, f, b, u);
      SetAffinityTask(s, c, mask, u, Get(f, u), Get(b, u));
      SameStrays(s, s', u, Get(f, u));
    }
    forall d: Cpu | d < |s.cpu|
      ensures CpuInv(s', f, b, d)
    {
      KnownCpu(s, f, b, d);
      SetAffinityCpu(s, c, mask, f, b, d);
    }
    Assemble(s, s', c, f, b);
  }

  lemma StartMigrationPlace(s: Kernel, c: Cpu, m: Task, u: Task, o: Option<Place>)
    requires Shape(s) && CanStartMigration(s, c, m) && PlaceInv(s, u, o)
    requires u == Current(s, c) ==> o == Some(Cur(c))
    requires m !in s.closure && m != Idle(s, c)
    ensures PlaceInv(DoStartMigration(s, c, m), u, Put(Put(o, u, s.cpu[c].current, Closure(m)), u, m, Next(c)))
  {
  }

  lemma StartMigrationStack(s: Kernel, c: Cpu, m: Task, u: Task, o: Option<Place>, k: Option<Cpu>)
    requires Shape(s) && CanStartMigration(s, c, m) && StackInv(s, u, o, k)
    requires u == Current(s, c) ==> o == Some(Cur(c))
    requires m !in s.closure && m != Idle(s, c)
    ensures StackInv(DoStartMigration(s, c, m), u, Put(Put(o, u, s.cpu[c].current, Closure(m)), u, m, Next(c)), k)
  {
    assert 0 in s.fullMask && c in s.fullMask;
  }

  lemma StartMigrationStrays(s: Kernel, c: Cpu, m: Task, u: Task, o: Option<Place>)
    requires Shape(s) && CanStartMigration(s, c, m) && NoStrays(s, u, o)
    requires u == Current(s, c) ==> o == Some(Cur(c))
    requires m !in s.closure && m != Idle(s, c)
    requires u == m ==> o == None
    ensures NoStrays(DoStartMigration(s, c, m), u, Put(Put(o, u, s.cpu[c].current, Closure(m)), u, m, Next(c)))
  {
    var s' := DoStartMigration(s, c, m);
    assert s'.waiting == s.waiting && s'.freed == s.freed && s'.handles == s.handles;
    forall d: Cpu | d < |s.cpu|
      ensures s'.cpu[d].ready == s.cpu[d].ready && s'.cpu[d].exited == s.cpu[d].exited
    {
    }
    forall w | u in Waiters(s', w)
      ensures u in Waiters(s, w)
    {
    }
  }

  lemma StartMigrationRoles(s: Kernel, c: Cpu, m: Task, f: map<Task, Place>, d: Cpu)
    requires Shape(s) && CanStartMigration(s, c, m) && d < |s.cpu| && CpuPlaces(s, f, c) && CpuPlaces(s, f, d)
    requires m !in f
    requires At(f, Current(s, c), Cur(c))
    ensures CpuPlaces(DoStartMigration(s, c, m), f[s.cpu[c].current := Closure(m)][m := Next(c)], d)
  {
    if d != c {
      OtherRoles(s, DoStartMigration(s, c, m), f, f[s.cpu[c].current := Closure(m)][m := Next(c)], d);
    }
  }

  lemma StartMigrationUses(s: Kernel, c: Cpu, m: Task, b: map<Task, Cpu>, d: Cpu)
    requires Shape(s) && CanStartMigration(s, c, m) && d < |s.cpu| && CpuStacks(s, b, c) && CpuStacks(s, b, d)
    requires m != Idle(s, d)
    ensures CpuStacks(DoStartMigration(s, c, m), b, d)
  {
  }

  lemma StartMigrationTasks(s: Kernel, c: Cpu, m: Task, f: map<Task, Place>, b: map<Task, Cpu>,
                            s': Kernel, f': map<Task, Place>)
    requires Inv(s, f, b) && CanStartMigration(s, c, m)
    requires s' == DoStartMigration(s, c, m) && f' == f[s.cpu[c].current := Closure(m)][m := Next(c)]
    ensures forall u: Task :: TaskInv(s', u, Get(f', u), Get(b, u))
  {
    KnownCpu(s, f, b, c);
    Known(s, f, b, s.cpu[c].current);
    Known(s, f, b, m);
    assert m !in f && At(f, s.cpu[c].current, Cur(c)) && m != s.cpu[c].current;
    forall u: Task
      ensures TaskInv(s', u, Get(f', u), Get(b, u))
    {
      Known(s, f, b, u);
      assert Get(f', u) == Put(Put(Get(f, u), u, s.cpu[c].current, Closure(m)), u, m, Next(c));
      StartMigrationPlace(s, c, m, u, Get(f, u));
      StartMigrationStack(s, c, m, u, Get(f, u), Get(b, u));
      StartMigrationStrays(s, c, m, u, Get(f, u));
    }
  }

  lemma StartMigrationKeeps(s: Kernel, c: Cpu, m: Task, f: map<Task, Place>, b: map<Task, Cpu>)
    requires Inv(s, f, b) && CanStartMigration(s, c, m)
    ensures Inv(DoStartMigration(s, c, m), f[s.cpu[c].current := Closure(m)][m := Next(c)], b)
  {
    var s' := DoStartMigration(s, c, m);
    var f' := f[s.cpu[c].current := Closure(m)][m := Next(c)];
    KnownCpu(s, f, b, c);
    Known(s, f, b, s.cpu[c].current);
    Known(s, f, b, m);
    assert m !in f && At(f, s.cpu[c].current, Cur(c)) && m != s.cpu[c].current;
    StartMigrationTasks(s, c, m, f, b, s', f');
    forall d: Cpu | d < |s.cpu|
      ensures CpuInv(s', f', b, d)
    {
      KnownCpu(s, f, b, d);
      StartMigrationRoles(s, c, m, f, d);
      StartMigrationUses(s, c, m, b, d);
    }
    Assemble(s, s', c, f', b);
  }

  lemma MigrateEntryTask(s: Kernel, c: Cpu, target: Cpu, u: Task, o: Option<Place>, k: Option<Cpu>)
    requires CanMigrateEntry(s, c, target) && PlaceInv(s, u, o) && StackInv(s, u, o, k)
    requires u == Owned(s, c) ==> o == Some(Closure(Current(s, c)))
    requires !InReady(s, target, Owned(s, c))
    requires !IsOnCpu(s, Owned(s, c))
    ensures PlaceInv(DoMigrateEntry(s, c, target), u, Put(o, u, s.closure[s.cpu[c].current], Queue(target)))
    ensures StackInv(DoMigrateEntry(s, c, target), u, Put(o, u, s.closure[s.cpu[c].current], Queue(target)), k)
  {
  }

  lemma MigrateEntryStrays(s: Kernel, c: Cpu, target: Cpu, u: Task, o: Option<Place>)
    requires CanMigrateEntry(s, c, target) && NoStrays(s, u, o)
    requires u == Owned(s, c) ==> o == Some(Closure(Current(s, c)))
    ensures NoStrays(DoMigrateEntry(s, c, target), u, Put(o, u, s.closure[s.cpu[c].current], Queue(target)))
  {
  }

  lemma MigrateEntryCpu(s: Kernel, c: Cpu, target: Cpu, f: map<Task, Place>, b: map<Task, Cpu>, d: Cpu)
    requires CanMigrateEntry(s, c, target) && d < |s.cpu|
    requires CpuPlaces(s, f, c) && CpuPlaces(s, f, d) && CpuStacks(s, b, c) && CpuStacks(s, b, d)
    requires At(f, Owned(s, c), Closure(Current(s, c)))
    ensures CpuPlaces(DoMigrateEntry(s, c, target), f[s.closure[s.cpu[c].current] := Queue(target)], d)
    ensures CpuStacks(DoMigrateEntry(s, c, target), b, d)
  {
  }

  lemma MigrateEntryKeeps(s: Kernel, c: Cpu, target: Cpu, f: map<Task, Place>, b: map<Task, Cpu>)
    requires Inv(s, f, b) && CanMigrateEntry(s, c, target)
    ensures Inv(DoMigrateEntry(s, c, target), f[s.closure[s.cpu[c].current] := Queue(target)], b)
  {
    var s' := DoMigrateEntry(s, c, target);
    var f' := f[s.closure[s.cpu[c].current] := Queue(target)];
    KnownCpu(s, f, b, c);
    MigratedIsOff(s, c, f, b);
    Known(s, f, b, s.closure[s.cpu[c].current]);
    forall u: Task
      ensures TaskInv(s', u, Get(f', u), Get(b, u))
    {
      Known(s, f, b, u);
      MigrateEntryTask(s, c, target, u, Get(f, u), Get(b, u));
      MigrateEntryStrays(s, c, target, u, Get(f, u));
    }
    forall d: Cpu | d < |s.cpu|
      ensures CpuInv(s', f', b, d)
    {
      KnownCpu(s, f, b, d);
      MigrateEntryCpu(s, c, target, f, b, d);
    }
    Assemble(s, s', c, f', b);
  }

  lemma MigrationDoneTask(s: Kernel, c: Cpu, u: Task, o: Option<Place>, k: Option<Cpu>)
    requires CanMigrationDone(s, c) && PlaceInv(s, u, o) && StackInv(s, u, o, k)
    ensures PlaceInv(DoMigrationDone(s, c), u, o)
    ensures StackInv(DoMigrationDone(s, c), u, o, k)
  {
  }

  lemma MigrationDoneCpu(s: Kernel, c: Cpu, f: map<Task, Place>, b: map<Task, Cpu>, d: Cpu)
    requires CanMigrationDone(s, c) && d < |s.cpu|
    requires CpuPlaces(s, f, c) && CpuPlaces(s, f, d) && CpuStacks(s, b, c) && CpuStacks(s, b, d)
    ensures CpuPlaces(DoMigrationDone(s, c), f, d)
    ensures CpuStacks(DoMigrationDone(s, c), b, d)
  {
  }

  lemma MigrationDoneKeeps(s: Kernel, c: Cpu, f: map<Task, Place>, b: map<Task, Cpu>)
    requires Inv(s, f, b) && CanMigrationDone(s, c)
    ensures Inv(DoMigrationDone(s, c), f, b)
  {
    var s' := DoMigrationDone(s, c);
    KnownCpu(s, f, b, c);
    Known(s, f, b, s.cpu[c].current);
    forall u: Task
      ensures TaskInv(s', u, Get(f, u), Get(b, u))
    {
      Known(s, f, b, u);
      MigrationDoneTask(s, c, u, Get(f, u), Get(b, u));
      SameStrays(s, s', u, Get(f, u));
    }
    forall d: Cpu | d < |s.cpu|
      ensures CpuInv(s', f, b, d)
    {
      KnownCpu(s, f, b, d);
      MigrationDoneCpu(s, c, f, b, d);
    }
    Assemble(s, s', c, f, b);
  }

  lemma SpawnTask(s: Kernel, c: Cpu, t: Task, mask: set<Cpu>, target: Cpu, u: Task, o: Option<Place>, k: Option<Cpu>)
    requires CanSpawn(s, c, t, mask, target) && PlaceInv(s, u, o) && StackInv(s, u, o, k)
    requires !InReady(s, target, t)
    ensures PlaceInv(DoSpawn(s, c, t, mask, target), u, Put(o, u, t, Queue(target)))
    ensures StackInv(DoSpawn(s, c, t, mask, target), u, Put(o, u, t, Queue(target)), k)
  {
    assert target in mask;
  }

  lemma SpawnStrays(s: Kernel, c: Cpu, t: Task, mask: set<Cpu>, target: Cpu, u: Task, o: Option<Place>)
    requires CanSpawn(s, c, t, mask, target) && NoStrays(s, u, o)
    requires u == t ==> o == None
    ensures NoStrays(DoSpawn(s, c, t, mask, target), u, Put(o, u, t, Queue(target)))
  {
  }

  lemma SpawnCpu(s: Kernel, c: Cpu, t: Task, mask: set<Cpu>, target: Cpu,
                 f: map<Task, Place>, b: map<Task, Cpu>, d: Cpu)
    requires CanSpawn(s, c, t, mask, target) && d < |s.cpu|
    requires CpuPlaces(s, f, c) && CpuPlaces(s, f, d) && CpuStacks(s, b, c) && CpuStacks(s, b, d)
    requires t !in f
    ensures CpuPlaces(DoSpawn(s, c, t, mask, target), f[t := Queue(target)], d)
    ensures CpuStacks(DoSpawn(s, c, t, mask, target), b, d)
  {
  }

  lemma SpawnKeeps(s: Kernel, c: Cpu, t: Task, mask: set<Cpu>, target: Cpu, f: map<Task, Place>, b: map<Task, Cpu>)
    requires Inv(s, f, b) && CanSpawn(s, c, t, mask, target)
    ensures Inv(DoSpawn(s, c, t, mask, target), f[t := Queue(target)], b)
  {
    var s' := DoSpawn(s, c, t, mask, target);
    var f' := f[t := Queue(target)];
    KnownCpu(s, f, b, c);
    Known(s, f, b, t);
    forall u: Task
      ensures TaskInv(s', u, Get(f', u), Get(b, u))
    {
      Known(s, f, b, u);
      SpawnTask(s, c, t, mask, target, u, Get(f, u), Get(b, u));
      SpawnStrays(s, c, t, mask, target, u, Get(f, u));
    }
    forall d: Cpu | d < |s.cpu|
      ensures CpuInv(s', f', b, d)
    {
      KnownCpu(s, f, b, d);
      SpawnCpu(s, c, t, mask, target, f, b, d);
    }
    Assemble(s, s', c, f', b);
  }

  lemma TakeHandleTask(s: Kernel, c: Cpu, u: Task, o: Option<Place>, k: Option<Cpu>)
    requires CanTakeHandle(s, c) && PlaceInv(s, u, o) && StackInv(s, u, o, k)
    requires u == Current(s, c) ==> o == Some(Cur(c))
    ensures PlaceInv(DoTakeHandle(s, c), u, o)
    ensures StackInv(DoTakeHandle(s, c), u, o, k)
  {
  }

  lemma TakeHandleStrays(s: Kernel, c: Cpu, u: Task, o: Option<Place>)
    requires CanTakeHandle(s, c) && NoStrays(s, u, o)
    requires u == Current(s, c) ==> o == Some(Cur(c))
    ensures NoStrays(DoTakeHandle(s, c), u, o)
  {
  }

  lemma TakeHandleCpu(s: Kernel, c: Cpu, f: map<Task, Place>, b: map<Task, Cpu>, d: Cpu)
    requires CanTakeHandle(s, c) && d < |s.cpu|
    requires CpuPlaces(s, f, c) && CpuPlaces(s, f, d) && CpuStacks(s, b, c) && CpuStacks(s, b, d)
    ensures CpuPlaces(DoTakeHandle(s, c), f, d)
    ensures CpuStacks(DoTakeHandle(s, c), b, d)
  {
  }

  lemma TakeHandleKeeps(s: Kernel, c: Cpu, f: map<Task, Place>, b: map<Task, Cpu>)
    requires Inv(s, f, b) && CanTakeHandle(s, c)
    ensures Inv(DoTakeHandle(s, c), f, b)
  {
    var s' := DoTakeHandle(s, c);
    KnownCpu(s, f, b, c);
    Known(s, f, b, s.cpu[c].current);
    forall u: Task
      ensures TaskInv(s', u, Get(f, u), Get(b, u))
    {
      Known(s, f, b, u);
      TakeHandleTask(s, c, u, Get(f, u), Get(b, u));
      TakeHandleStrays(s, c, u, Get(f, u));
    }
    forall d: Cpu | d < |s.cpu|
      ensures CpuInv(s', f, b, d)
    {
      KnownCpu(s, f, b, d);
      TakeHandleCpu(s, c, f, b, d);
    }
    Assemble(s, s', c, f, b);
  }

  lemma DropHandleTask(s: Kernel, c: Cpu, t: Task, u: Task, o: Option<Place>, k: Option<Cpu>)
    requires CanDropHandle(s, c, t) && PlaceInv(s, u, o) && StackInv(s, u, o, k)
    ensures PlaceInv(DoDropHandle(s, c, t), u, o)
    ensures StackInv(DoDropHandle(s, c, t), u, o, k)
  {
  }

  lemma DropHandleCpu(s: Kernel, c: Cpu, t: Task, f: map<Task, Place>, b: map<Task, Cpu>, d: Cpu)
    requires CanDropHandle(s, c, t) && d < |s.cpu|
    requires CpuPlaces(s, f, c) && CpuPlaces(s, f, d) && CpuStacks(s, b, c) && CpuStacks(s, b, d)
    ensures CpuPlaces(DoDropHandle(s, c, t), f, d)
    ensures CpuStacks(DoDropHandle(s, c, t), b, d)
  {
  }

  lemma DropHandleKeeps(s: Kernel, c: Cpu, t: Task, f: map<Task, Place>, b: map<Task, Cpu>)
    requires Inv(s, f, b) && CanDropHandle(s, c, t)
    ensures Inv(DoDropHandle(s, c, t), f, b)
  {
    var s' := DoDropHandle(s, c, t);
    KnownCpu(s, f, b, c);
    forall u: Task
      ensures TaskInv(s', u, Get(f, u), Get(b, u))
    {
      Known(s, f, b, u);
      DropHandleTask(s, c, t, u, Get(f, u), Get(b, u));
      SameStrays(s, s', u, Get(f, u));
    }
    forall d: Cpu | d < |s.cpu|
      ensures CpuInv(s', f, b, d)
    {
      KnownCpu(s, f, b, d);
      DropHandleCpu(s, c, t, f, b, d);
    }
    Assemble(s, s', c, f, b);
  }
}
