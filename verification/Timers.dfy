/**
 Wait queues and timer events on one CPU. A step is a section that runs with IRQs off;
 between two steps a timer interrupt may be served, the clock advances and tasks are
 preempted.
 */
module Timers {
  import opened Common

  type Task = nat
  type Queue = nat

  datatype RunState = Running | Ready | Blocked

  /** The blocking call a task is in. Times are absolute. */
  datatype Op =
    | Free
    | Wait(q: Queue)                        // wait
    | WaitUntil(q: Queue)                   // wait_until
    | Timed(q: Queue, deadline: nat)        // wait_timeout
    | TimedUntil(q: Queue, deadline: nat)   // wait_timeout_until
    | Ending(q: Queue, deadline: nat, timeout: bool)   // wait_timeout_until, out of its loop
    | Sleep(deadline: nat)                  // sleep_until

  /** `notified` and `result` are history: popped by a notify during this call, value of the last call. */
  datatype TaskRec = TaskRec(
    state: RunState, inWaitQueue: bool, ticket: nat, op: Op, notified: bool, result: Option<bool>)

  datatype Event = Event(deadline: nat, ticket: nat, task: Task)

  datatype State = State(
    now: nat,
    nextTicket: nat,                        // TIMER_TICKET_ID
    running: Option<Task>,                  // None: the idle task
    tasks: map<Task, TaskRec>,
    queues: map<Queue, seq<Task>>,
    timers: set<Event>                      // TIMER_LIST
  )

  datatype Step =
    | Advance(to: nat)
    | Tick(event: Event)
    | Pick(t: Task)
    | Preempt
    | Notify(q: Queue)
    | BeginWait(q: Queue)
    | EndWait
    | BeginUntil(q: Queue)
    | UntilLoop(cond: bool)
    | BeginTimeout(q: Queue, dur: nat)
    | BeginTimedUntil(q: Queue, dur: nat)
    | TimedLoop(cond: bool)
    | EndTimedUntil
    | BeginSleep(deadline: nat)

  // ---------------------------------------------------------------- fields

  /** Tasks that have not done anything yet are ready. */
  function Rec(tasks: map<Task, TaskRec>, t: Task): TaskRec {
    if t in tasks then tasks[t] else TaskRec(Ready, false, 0, Free, false, None)
  }

  function Put(tasks: map<Task, TaskRec>, t: Task, r: TaskRec): (tasks': map<Task, TaskRec>)
    ensures forall u: Task :: Rec(tasks', u) == if u == t then r else Rec(tasks, u)
  {
    tasks[t := r]
  }

  function Members(queues: map<Queue, seq<Task>>, q: Queue): seq<Task> {
    if q in queues then queues[q] else []
  }

  function SetMembers(queues: map<Queue, seq<Task>>, q: Queue, m: seq<Task>): (queues': map<Queue, seq<Task>>)
    ensures forall p: Queue :: Members(queues', p) == if p == q then m else Members(queues, p)
  {
    queues[q := m]
  }

  ghost predicate Distinct(m: seq<Task>) {
    forall i, j :: 0 <= i < j < |m| ==> m[i] != m[j]
  }

  /** `retain` of everything but `t` */
  function Without(m: seq<Task>, t: Task): (r: seq<Task>)
    ensures forall u :: u in r <==> u in m && u != t
    ensures Distinct(m) ==> Distinct(r)
  {
    if m == [] then []
    else
      var rest := Without(m[1..], t);
      assert Distinct(m) ==> Distinct(m[1..]) && m[0] !in m[1..];
      if m[0] == t then rest else [m[0]] + rest
  }

  const Start := State(0, 1, None, map[], map[], {})

  // ---------------------------------------------------------------- steps

  /** `set_alarm_wakeup` */
  function SetAlarm(s: State, t: Task, deadline: nat): State {
    s.(nextTicket := s.nextTicket + 1,
       tasks := Put(s.tasks, t, Rec(s.tasks, t).(ticket := s.nextTicket)),
       timers := s.timers + {Event(deadline, s.nextTicket, t)})
  }

  /** `blocked_resched` with the lock of queue `q` */
  function Block(s: State, t: Task, q: Queue): State {
    s.(running := None,
       tasks := Put(s.tasks, t, Rec(s.tasks, t).(state := Blocked, inWaitQueue := true)),
       queues := SetMembers(s.queues, q, Members(s.queues, q) + [t]))
  }

  /** The blocking call of `t` starts. */
  function Begin(s: State, t: Task, op: Op): State {
    s.(tasks := Put(s.tasks, t, Rec(s.tasks, t).(op := op, notified := false)))
  }

  /** `cancel_events`, and the blocking call of `t` returns `result` */
  function Finish(s: State, t: Task, q: Queue, cancelTimer: bool, result: Option<bool>): State {
    var r := Rec(s.tasks, t);
    s.(queues := if r.inWaitQueue then SetMembers(s.queues, q, Without(Members(s.queues, q), t)) else s.queues,
       tasks := Put(s.tasks, t, r.(inWaitQueue := false, op := Free, result := result,
                                   ticket := if cancelTimer then 0 else r.ticket)))
  }

  /** The loop of `wait_timeout_until` is left; IRQs are on again before `cancel_events`. */
  function LeaveLoop(s: State, t: Task, timeout: bool): State
    requires HasDeadline(Rec(s.tasks, t).op) && HasQueue(Rec(s.tasks, t).op)
  {
    var r := Rec(s.tasks, t);
    s.(tasks := Put(s.tasks, t, r.(op := Ending(r.op.q, r.op.deadline, timeout))))
  }

  /** `unblock_task` */
  function Unblock(r: TaskRec): TaskRec {
    if r.state.Blocked? then r.(state := Ready) else r
  }

  /** The running task is in the call `op`. */
  predicate Runs(s: State, op: Op) {
    s.running.Some? && Rec(s.tasks, s.running.value).op == op
  }

  function CurrentOp(s: State): Op {
    if s.running.Some? then Rec(s.tasks, s.running.value).op else Free
  }

  predicate Enabled(s: State, a: Step) {
    match a
    case Advance(to) => to >= s.now
    case Tick(e) => e in s.timers && e.deadline <= s.now
    case Pick(t) => s.running.None? && Rec(s.tasks, t).state.Ready?
    case Preempt => s.running.Some?
    case Notify(_) => true
    case EndWait => CurrentOp(s).Wait?
    case UntilLoop(_) => CurrentOp(s).WaitUntil?
    case TimedLoop(_) => CurrentOp(s).TimedUntil?
    case EndTimedUntil => CurrentOp(s).Ending?
    case _ => Runs(s, Free)
  }

  /** A picked task returns from `blocked_resched`; two calls end there without IRQs in between. */
  function Resume(s: State, t: Task): State {
    var s1 := s.(running := Some(t), tasks := Put(s.tasks, t, Rec(s.tasks, t).(state := Running)));
    match Rec(s.tasks, t).op
    case Timed(q, _) => Finish(s1, t, q, true, Some(Rec(s.tasks, t).inWaitQueue))
    case Sleep(_) => s1.(tasks := Put(s1.tasks, t, Rec(s1.tasks, t).(op := Free, result := None)))
    case _ => s1
  }

  function Do(s: State, a: Step): State
    requires Enabled(s, a)
  {
    match a
    case Advance(to) => s.(now := to)
    case Tick(e) =>
      var r := Rec(s.tasks, e.task);
      s.(timers := s.timers - {e}, tasks := if r.ticket == e.ticket then Put(s.tasks, e.task, Unblock(r)) else s.tasks)
    case Pick(t) => Resume(s, t)
    case Preempt =>
      var t := s.running.value;
      s.(running := None, tasks := Put(s.tasks, t, Rec(s.tasks, t).(state := Ready)))
    case Notify(q) =>
      var m := Members(s.queues, q);
      if m == [] then s
      else s.(queues := SetMembers(s.queues, q, m[1..]),
              tasks := Put(s.tasks, m[0], Unblock(Rec(s.tasks, m[0])).(inWaitQueue := false, notified := true)))
    case BeginWait(q) =>
      var t := s.running.value;
      Block(Begin(s, t, Wait(q)), t, q)
    case EndWait =>
      var t := s.running.value;
      Finish(s, t, CurrentOp(s).q, false, None)
    case BeginUntil(q) => Begin(s, s.running.value, WaitUntil(q))
    case UntilLoop(cond) =>
      var t := s.running.value;
      if cond then Finish(s, t, CurrentOp(s).q, false, None) else Block(s, t, CurrentOp(s).q)
    case BeginTimeout(q, dur) =>
      var t := s.running.value;
      Block(SetAlarm(Begin(s, t, Timed(q, s.now + dur)), t, s.now + dur), t, q)
    case BeginTimedUntil(q, dur) =>
      var t := s.running.value;
      SetAlarm(Begin(s, t, TimedUntil(q, s.now + dur)), t, s.now + dur)
    case TimedLoop(cond) =>
      var t := s.running.value;
      if s.now >= CurrentOp(s).deadline then LeaveLoop(s, t, true)
      else if cond then LeaveLoop(s, t, false)
      else Block(s, t, CurrentOp(s).q)
    case EndTimedUntil =>
      var t := s.running.value;
      Finish(s, t, CurrentOp(s).q, true, Some(CurrentOp(s).timeout))
    case BeginSleep(deadline) =>
      var t := s.running.value;
      if s.now < deadline then
        var s1 := SetAlarm(Begin(s, t, Sleep(deadline)), t, deadline);
        s1.(running := None, tasks := Put(s1.tasks, t, Rec(s1.tasks, t).(state := Blocked)))
      else s
  }

  // ---------------------------------------------------------------- invariant

  predicate HasDeadline(op: Op) {
    op.Timed? || op.TimedUntil? || op.Ending? || op.Sleep?
  }

  predicate HasQueue(op: Op) {
    op.Wait? || op.WaitUntil? || op.Timed? || op.TimedUntil? || op.Ending?
  }

  /** The event that will wake `t` from its present call. */
  function LiveEvent(r: TaskRec, t: Task): Event
    requires HasDeadline(r.op)
  {
    Event(r.op.deadline, r.ticket, t)
  }

  ghost predicate TaskOk(s: State, t: Task) {
    var r := Rec(s.tasks, t);
    && (r.state.Running? <==> s.running == Some(t))
    && (r.inWaitQueue ==> HasQueue(r.op))
    && (r.state.Blocked? ==> r.inWaitQueue || r.op.Sleep?)
    && (HasDeadline(r.op) && (r.state.Blocked? || s.now < r.op.deadline) ==> LiveEvent(r, t) in s.timers)
    && (r.inWaitQueue && !r.state.Blocked? ==> HasDeadline(r.op))
    && (HasDeadline(r.op) && !r.state.Blocked? && (r.inWaitQueue || r.op.Sleep?) ==> s.now >= r.op.deadline)
    && (r.op.Timed? ==> (r.notified <==> !r.inWaitQueue) && !r.state.Running?)
    && (r.op.Sleep? ==> !r.state.Running?)
    && (r.op.Ending? ==> !r.state.Blocked? && (r.op.timeout ==> s.now >= r.op.deadline))
    && r.ticket < s.nextTicket
  }

  ghost predicate EventOk(s: State, e: Event) {
    var r := Rec(s.tasks, e.task);
    && 0 < e.ticket < s.nextTicket
    && (r.ticket == e.ticket ==> HasDeadline(r.op) && e == LiveEvent(r, e.task) && (r.op.Sleep? ==> r.state.Blocked?))
  }

  predicate Queued(r: TaskRec, q: Queue) {
    r.inWaitQueue && HasQueue(r.op) && r.op.q == q
  }

  ghost predicate QueueOk(s: State, q: Queue) {
    var m := Members(s.queues, q);
    && (forall t: Task :: t in m <==> Queued(Rec(s.tasks, t), q))
    && Distinct(m)
  }

  ghost predicate Inv(s: State) {
    && (forall t: Task :: TaskOk(s, t))
    && (forall e: Event :: e in s.timers ==> EventOk(s, e))
    && (forall e: Event, e': Event :: e in s.timers && e' in s.timers && e.ticket == e'.ticket ==> e == e')
    && (forall q: Queue :: QueueOk(s, q))
  }

  /** The steps of the running task itself. */
  predicate IsCall(a: Step) {
    !(a.Advance? || a.Tick? || a.Pick? || a.Preempt? || a.Notify?)
  }

  lemma TaskKeptByBegin(s: State, a: Step, t: Task)
    requires Inv(s) && Enabled(s, a)
    requires a.BeginWait? || a.BeginUntil? || a.BeginTimeout? || a.BeginTimedUntil? || a.BeginSleep?
    ensures TaskOk(Do(s, a), t)
  {
    assert TaskOk(s, t) && TaskOk(s, s.running.value);
  }

  lemma TaskKeptByCall(s: State, a: Step, t: Task)
    requires Inv(s) && Enabled(s, a) && IsCall(a)
    ensures TaskOk(Do(s, a), t)
  {
    if a.EndWait? || a.UntilLoop? || a.TimedLoop? || a.EndTimedUntil? {
      assert TaskOk(s, t) && TaskOk(s, s.running.value);
    } else {
      TaskKeptByBegin(s, a, t);
    }
  }

  lemma TaskKeptByPick(s: State, u: Task, t: Task)
    requires Inv(s) && Enabled(s, Pick(u))
    ensures TaskOk(Do(s, Pick(u)), t)
  {
    assert TaskOk(s, t) && TaskOk(s, u);
  }

  lemma TaskKept(s: State, a: Step, t: Task)
    requires Inv(s) && Enabled(s, a)
    ensures TaskOk(Do(s, a), t)
  {
    assert TaskOk(s, t);
    match a
    case Tick(e) => assert EventOk(s, e);
    case Pick(u) => TaskKeptByPick(s, u, t);
    case Notify(q) => assert QueueOk(s, q);
    case Advance(_) =>
    case Preempt => assert TaskOk(s, s.running.value);
    case _ => TaskKeptByCall(s, a, t);
  }

  lemma EventKeptByCall(s: State, a: Step, e: Event)
    requires Inv(s) && Enabled(s, a) && IsCall(a) && e in Do(s, a).timers
    ensures EventOk(Do(s, a), e)
  {
    assert e in s.timers ==> EventOk(s, e);
    assert TaskOk(s, e.task) && TaskOk(s, s.running.value);
  }

  lemma EventKept(s: State, a: Step, e: Event)
    requires Inv(s) && Enabled(s, a) && e in Do(s, a).timers
    ensures EventOk(Do(s, a), e)
  {
    if IsCall(a) {
      EventKeptByCall(s, a, e);
    } else {
      assert EventOk(s, e) && TaskOk(s, e.task);
      if a.Notify? {
        assert QueueOk(s, a.q);
      }
    }
  }

  lemma QueueKeptByCall(s: State, a: Step, q: Queue)
    requires Inv(s) && Enabled(s, a) && IsCall(a)
    ensures QueueOk(Do(s, a), q)
  {
    assert QueueOk(s, q) && TaskOk(s, s.running.value);
  }

  lemma QueueKept(s: State, a: Step, q: Queue)
    requires Inv(s) && Enabled(s, a)
    ensures QueueOk(Do(s, a), q)
  {
    assert QueueOk(s, q);
    match a
    case Tick(e) => assert TaskOk(s, e.task);
    case Pick(u) => assert TaskOk(s, u);
    case Notify(p) => assert QueueOk(s, p);
    case Advance(_) =>
    case Preempt => assert TaskOk(s, s.running.value);
    case _ => QueueKeptByCall(s, a, q);
  }

  // ---------------------------------------------------------------- every run

  function Exec(s: State, steps: seq<Step>): Option<State>
    decreases |steps|
  {
    if steps == [] then Some(s)
    else if Enabled(s, steps[0]) then Exec(Do(s, steps[0]), steps[1..])
    else None
  }

  /** A ticket is handed out once. */
  lemma TicketsKept(s: State, a: Step, e: Event, e': Event)
    requires Inv(s) && Enabled(s, a)
    requires e in Do(s, a).timers && e' in Do(s, a).timers && e.ticket == e'.ticket
    ensures e == e'
  {
    assert (e in s.timers ==> EventOk(s, e)) && (e' in s.timers ==> EventOk(s, e'));
  }

  lemma StepKeeps(s: State, a: Step)
    requires Inv(s) && Enabled(s, a)
    ensures Inv(Do(s, a))
  {
    var s' := Do(s, a);
    forall t: Task
      ensures TaskOk(s', t)
    {
      TaskKept(s, a, t);
    }
    forall e: Event | e in s'.timers
      ensures EventOk(s', e)
    {
      EventKept(s, a, e);
    }
    forall q: Queue
      ensures QueueOk(s', q)
    {
      QueueKept(s, a, q);
    }
    forall e: Event, e': Event | e in s'.timers && e' in s'.timers && e.ticket == e'.ticket
      ensures e == e'
    {
      TicketsKept(s, a, e, e');
    }
  }

  lemma {:induction false} RunKeeps(s: State, steps: seq<Step>)
    requires Inv(s) && Exec(s, steps).Some?
    ensures Inv(Exec(s, steps).value)
    decreases |steps|
  {
    if steps != [] {
      StepKeeps(s, steps[0]);
      RunKeeps(Do(s, steps[0]), steps[1..]);
    }
  }

  ghost predicate Reachable(s: State) {
    exists steps :: Exec(Start, steps) == Some(s)
  }

  lemma ReachableInv(s: State)
    requires Reachable(s)
    ensures Inv(s)
  {
    var steps :| Exec(Start, steps) == Some(s);
    RunKeeps(Start, steps);
  }

  /** A timer event wakes nobody but the task that armed it for the call it is still in. */
  lemma StaleTicketNeverWakes(s: State, e: Event, t: Task)
    requires Reachable(s) && Enabled(s, Tick(e))
    requires Rec(Do(s, Tick(e)).tasks, t) != Rec(s.tasks, t)
    ensures t == e.task && HasDeadline(Rec(s.tasks, t).op) && e == LiveEvent(Rec(s.tasks, t), t)
    ensures Rec(s.tasks, t).state.Blocked? && Rec(s.tasks, t).op.deadline <= s.now
  {
    ReachableInv(s);
    assert EventOk(s, e);
  }

  /** After `check_events` has run out of expired events, no deadline of a blocked task has passed. */
  lemma OverdueTasksAreAwake(s: State, t: Task)
    requires Reachable(s) && forall e :: e in s.timers ==> e.deadline > s.now
    requires HasDeadline(Rec(s.tasks, t).op) && Rec(s.tasks, t).op.deadline <= s.now
    ensures !Rec(s.tasks, t).state.Blocked?
  {
    ReachableInv(s);
    assert TaskOk(s, t);
  }

  lemma FreeIsClean(s: State, t: Task)
    requires Inv(s) && Rec(s.tasks, t).op.Free?
    ensures !Rec(s.tasks, t).state.Blocked? && !Rec(s.tasks, t).inWaitQueue
    ensures forall q: Queue :: t !in Members(s.queues, q)
    ensures forall e :: e in s.timers && e.task == t ==> e.ticket != Rec(s.tasks, t).ticket
  {
    assert TaskOk(s, t);
    forall q: Queue
      ensures t !in Members(s.queues, q)
    {
      assert QueueOk(s, q);
    }
    forall e | e in s.timers && e.task == t
      ensures e.ticket != Rec(s.tasks, t).ticket
    {
      assert EventOk(s, e);
    }
  }

  /** Outside the blocking calls a task is in no queue and no event in the timer list can wake it. */
  lemma NothingLeftBehind(s: State, t: Task)
    requires Reachable(s) && Rec(s.tasks, t).op.Free?
    ensures !Rec(s.tasks, t).state.Blocked? && !Rec(s.tasks, t).inWaitQueue
    ensures forall q: Queue :: t !in Members(s.queues, q)
    ensures forall e :: e in s.timers && e.task == t ==> e.ticket != Rec(s.tasks, t).ticket
  {
    ReachableInv(s);
    FreeIsClean(s, t);
  }

  /** `wait_timeout` says whether it timed out: if so the deadline has passed, if not a notify took the task. */
  lemma WaitTimeoutResult(s: State, t: Task)
    requires Reachable(s) && Enabled(s, Pick(t)) && Rec(s.tasks, t).op.Timed?
    ensures var r := Rec(s.tasks, t);
      var r' := Rec(Do(s, Pick(t)).tasks, t);
      r'.op.Free? && r'.result == Some(!r.notified) && (r'.result == Some(true) ==> s.now >= r.op.deadline)
  {
    ReachableInv(s);
    assert TaskOk(s, t);
  }

  /** `wait_timeout_until` leaves its loop with true just when the deadline has passed, else with the condition true. */
  lemma WaitTimeoutUntilLeaves(s: State, cond: bool)
    requires Reachable(s) && Enabled(s, TimedLoop(cond)) && (cond || s.now >= CurrentOp(s).deadline)
    ensures var s' := Do(s, TimedLoop(cond));
      var op := CurrentOp(s');
      && s'.running == s.running && op == Ending(CurrentOp(s).q, CurrentOp(s).deadline, s.now >= CurrentOp(s).deadline)
      && (!op.timeout ==> cond && s.running.value !in Members(s'.queues, op.q))
  {
    ReachableInv(s);
    assert TaskOk(s, s.running.value) && QueueOk(s, CurrentOp(s).q);
  }

  /**
   Whatever happens after that, it returns what it left the loop with, true only after the
   deadline, and out of the queue and without a live event.
   */
  lemma WaitTimeoutUntilResult(s: State)
    requires Reachable(s) && Enabled(s, EndTimedUntil)
    ensures var t := s.running.value;
      var s' := Do(s, EndTimedUntil);
      var r := Rec(s'.tasks, t);
      && r.state.Running? && r.op.Free? && r.result == Some(CurrentOp(s).timeout)
      && (CurrentOp(s).timeout ==> s.now >= CurrentOp(s).deadline)
      && !r.inWaitQueue && (forall q: Queue :: t !in Members(s'.queues, q))
      && (forall e :: e in s'.timers && e.task == t ==> e.ticket != r.ticket)
  {
    ReachableInv(s);
    assert TaskOk(s, s.running.value);
    StepKeeps(s, EndTimedUntil);
    FreeIsClean(Do(s, EndTimedUntil), s.running.value);
  }

  /**
   A task that does not run is ready or held: by the queue it waits in or by the timer list,
   which holds every blocked task with a deadline.
   */
  lemma SleeperIsHeld(s: State, t: Task)
    requires Reachable(s) && s.running != Some(t)
    ensures var r := Rec(s.tasks, t);
      || r.state.Ready?
      || (r.state.Blocked? && HasQueue(r.op) && t in Members(s.queues, r.op.q)
          && (HasDeadline(r.op) ==> LiveEvent(r, t) in s.timers))
      || (r.state.Blocked? && r.op.Sleep? && LiveEvent(r, t) in s.timers)
  {
    ReachableInv(s);
    var r := Rec(s.tasks, t);
    assert TaskOk(s, t);
    if HasQueue(r.op) {
      assert QueueOk(s, r.op.q);
    }
  }

  /** A sleeping task is picked only after its deadline. */
  lemma SleepIsLongEnough(s: State, t: Task)
    requires Reachable(s) && Enabled(s, Pick(t)) && Rec(s.tasks, t).op.Sleep?
    ensures s.now >= Rec(s.tasks, t).op.deadline
  {
    ReachableInv(s);
    assert TaskOk(s, t);
  }

  /** `wait_timeout_until` enters the queue again only when it has left it, and with an event to come. */
  lemma RequeuedOnce(s: State)
    requires Reachable(s) && Enabled(s, TimedLoop(false)) && s.now < CurrentOp(s).deadline
    ensures var t := s.running.value;
      && t !in Members(s.queues, CurrentOp(s).q)
      && LiveEvent(Rec(s.tasks, t), t) in s.timers
  {
    ReachableInv(s);
    assert TaskOk(s, s.running.value) && QueueOk(s, CurrentOp(s).q);
  }

  /** A notify takes the first task, which is awake afterwards, and no other. */
  lemma NotifyTakesFirst(s: State, q: Queue)
    requires Reachable(s) && Members(s.queues, q) != []
    ensures var t := Members(s.queues, q)[0];
      var s' := Do(s, Notify(q));
      && !Rec(s'.tasks, t).state.Blocked? && !Rec(s'.tasks, t).inWaitQueue
      && t !in Members(s'.queues, q)
      && (forall u: Task :: u != t ==> Rec(s'.tasks, u) == Rec(s.tasks, u))
      && (forall u: Task :: u != t ==> (u in Members(s'.queues, q) <==> u in Members(s.queues, q)))
  {
    ReachableInv(s);
    assert QueueOk(s, q);
  }

  // ---------------------------------------------------------------- from the call to its return

  /** The calls that end at a time of their own, and that time. */
  predicate IsTimed(a: Step) {
    a.BeginTimeout? || a.BeginTimedUntil? || a.BeginSleep?
  }

  function DueAt(now0: nat, a: Step): nat
    requires IsTimed(a)
  {
    if a.BeginSleep? then a.deadline else now0 + a.dur
  }

  /** The steps can be taken from `s`, and after none of them the blocking call of `t` has returned. */
  predicate Pending(s: State, steps: seq<Step>, t: Task)
    decreases |steps|
  {
    steps != [] ==>
      Enabled(s, steps[0]) && !Rec(Do(s, steps[0]).tasks, t).op.Free? && Pending(Do(s, steps[0]), steps[1..], t)
  }

  /** A task keeps its call, on the same queue and with the same deadline, until the call returns. */
  predicate SameCall(op: Op, op': Op) {
    && (HasQueue(op) ==> HasQueue(op') && op'.q == op.q)
    && (HasDeadline(op) ==> HasDeadline(op') && op'.deadline == op.deadline)
    && (op.Sleep? == op'.Sleep?) && (op.Timed? == op'.Timed?) && (op.Wait? == op'.Wait?)
    && (op.WaitUntil? == op'.WaitUntil?)
  }

  lemma StepKeepsCall(s: State, a: Step, t: Task)
    requires Enabled(s, a) && !Rec(s.tasks, t).op.Free? && !Rec(Do(s, a).tasks, t).op.Free?
    ensures SameCall(Rec(s.tasks, t).op, Rec(Do(s, a).tasks, t).op)
  {
  }

  lemma {:induction false} PendingKeepsCall(s: State, steps: seq<Step>, t: Task)
    requires Inv(s) && !Rec(s.tasks, t).op.Free? && Pending(s, steps, t)
    ensures Exec(s, steps).Some? && Inv(Exec(s, steps).value)
    ensures SameCall(Rec(s.tasks, t).op, Rec(Exec(s, steps).value.tasks, t).op)
    ensures !Rec(Exec(s, steps).value.tasks, t).op.Free?
    decreases |steps|
  {
    if steps != [] {
      StepKeeps(s, steps[0]);
      StepKeepsCall(s, steps[0], t);
      PendingKeepsCall(Do(s, steps[0]), steps[1..], t);
    }
  }

  /** The state `s2` is reached while the call that `begin` starts in `s0`, which is reachable, has not returned. */
  ghost predicate During(s0: State, begin: Step, t: Task, s2: State) {
    && Reachable(s0) && Enabled(s0, begin) && s0.running == Some(t) && !Rec(Do(s0, begin).tasks, t).op.Free?
    && exists steps :: Pending(Do(s0, begin), steps, t) && Exec(Do(s0, begin), steps) == Some(s2)
  }

  lemma DuringCall(s0: State, begin: Step, t: Task, s2: State)
    requires During(s0, begin, t, s2)
    ensures Inv(s2) && SameCall(Rec(Do(s0, begin).tasks, t).op, Rec(s2.tasks, t).op) && !Rec(s2.tasks, t).op.Free?
  {
    ReachableInv(s0);
    StepKeeps(s0, begin);
    var steps :| Pending(Do(s0, begin), steps, t) && Exec(Do(s0, begin), steps) == Some(s2);
    PendingKeepsCall(Do(s0, begin), steps, t);
  }

  /** The step with which each kind of call returns, and what it returns. */
  lemma HowItReturns(s: State, a: Step, t: Task)
    requires Enabled(s, a) && !Rec(s.tasks, t).op.Free? && Rec(Do(s, a).tasks, t).op.Free?
    ensures var r := Rec(s.tasks, t);
      var result := Rec(Do(s, a).tasks, t).result;
      match r.op
      case Timed(_, _) => a == Pick(t) && result == Some(r.inWaitQueue)
      case Ending(_, _, timeout) => a == EndTimedUntil && s.running == Some(t) && result == Some(timeout)
      case WaitUntil(_) => a == UntilLoop(true) && s.running == Some(t)
      case Wait(_) => a == EndWait && s.running == Some(t)
      case Sleep(_) => a == Pick(t)
      case _ => false
  {
  }

  /**
   `wait_timeout(dur)` and `wait_timeout_until(dur)` called at time `now0`: whatever happens in
   between, the step with which the call returns has a result, and true comes no sooner than
   `now0 + dur`. `wait_timeout` returns true just if the task is still in the queue.
   */
  lemma TimeoutIsLongEnough(s0: State, begin: Step, t: Task, s2: State, a: Step)
    requires During(s0, begin, t, s2) && (begin.BeginTimeout? || begin.BeginTimedUntil?)
    requires Enabled(s2, a) && Rec(Do(s2, a).tasks, t).op.Free?
    ensures var result := Rec(Do(s2, a).tasks, t).result;
      && result.Some? && (result.value ==> s2.now >= s0.now + begin.dur)
      && (begin.BeginTimeout? ==> (result.value <==> t in Members(s2.queues, begin.q)))
  {
    DuringCall(s0, begin, t, s2);
    HowItReturns(s2, a, t);
    assert TaskOk(s2, t) && QueueOk(s2, begin.q);
  }

  /** `sleep_until(d)` called before `d`: the task does not run again before `d`. */
  lemma SleepsUntilDeadline(s0: State, d: nat, t: Task, s2: State)
    requires During(s0, BeginSleep(d), t, s2)
    ensures s0.now < d && s2.running != Some(t) && (Enabled(s2, Pick(t)) ==> s2.now >= d)
  {
    DuringCall(s0, BeginSleep(d), t, s2);
    assert TaskOk(s2, t);
  }

  lemma SleepInThePast(s: State, d: nat)
    requires Enabled(s, BeginSleep(d)) && d <= s.now
    ensures Do(s, BeginSleep(d)) == s
  {
  }

  /** When the time of a call has come and the events that are due have been served, its task is awake. */
  lemma AwakeInTime(s0: State, begin: Step, t: Task, s2: State)
    requires During(s0, begin, t, s2) && IsTimed(begin) && s2.now >= DueAt(s0.now, begin)
    requires forall e :: e in s2.timers ==> e.deadline > s2.now
    ensures !Rec(s2.tasks, t).state.Blocked?
  {
    DuringCall(s0, begin, t, s2);
    assert TaskOk(s2, t);
  }

  /** Before that the event that will wake it is in the timer list, for just that time. */
  lemma EventIsArmed(s0: State, begin: Step, t: Task, s2: State)
    requires During(s0, begin, t, s2) && IsTimed(begin) && s2.now < DueAt(s0.now, begin)
    ensures exists e :: e in s2.timers && e.task == t && e.deadline == DueAt(s0.now, begin)
                        && e.ticket == Rec(s2.tasks, t).ticket
  {
    DuringCall(s0, begin, t, s2);
    assert TaskOk(s2, t);
    assert LiveEvent(Rec(s2.tasks, t), t) in s2.timers;
  }

  /** `wait(q)`: the task runs again only when a notify has taken it out of the queue. */
  lemma WaitIsNotified(s0: State, q: Queue, t: Task, s2: State)
    requires During(s0, BeginWait(q), t, s2) && (Enabled(s2, Pick(t)) || s2.running == Some(t))
    ensures t !in Members(s2.queues, q)
  {
    DuringCall(s0, BeginWait(q), t, s2);
    assert TaskOk(s2, t) && QueueOk(s2, q);
  }

  /** `wait_until(q)` returns only in a turn of its loop that finds the condition true, and out of the queue. */
  lemma UntilFindsCondition(s0: State, q: Queue, t: Task, s2: State, a: Step)
    requires During(s0, BeginUntil(q), t, s2)
    requires Enabled(s2, a) && Rec(Do(s2, a).tasks, t).op.Free?
    ensures a == UntilLoop(true) && s2.running == Some(t) && t !in Members(Do(s2, a).queues, q)
  {
    DuringCall(s0, BeginUntil(q), t, s2);
    HowItReturns(s2, a, t);
    assert TaskOk(s2, t) && QueueOk(s2, q);
  }

  // ---------------------------------------------------------------- what single steps do

  /** The queue in which the running task goes to sleep with this step, if it does. */
  function SleepsIn(s: State, a: Step): Option<Queue> {
    if s.running.None? then None
    else if a.BeginWait? || a.BeginTimeout? then Some(a.q)
    else if a == UntilLoop(false) && CurrentOp(s).WaitUntil? then Some(CurrentOp(s).q)
    else if a == TimedLoop(false) && CurrentOp(s).TimedUntil? && s.now < CurrentOp(s).deadline
    then Some(CurrentOp(s).q)
    else None
  }

  /** It blocks as the last of that queue. */
  lemma BlocksLast(s: State, a: Step)
    requires Enabled(s, a) && SleepsIn(s, a).Some?
    ensures var t, q, s' := s.running.value, SleepsIn(s, a).value, Do(s, a);
      && Rec(s'.tasks, t).state.Blocked? && s'.running.None? && Members(s'.queues, q) == Members(s.queues, q) + [t]
      && (forall p: Queue :: p != q ==> Members(s'.queues, p) == Members(s.queues, p))
      && forall u: Task :: u != t ==> Rec(s'.tasks, u) == Rec(s.tasks, u)
  {
  }

  /** An expired event is served once: it is taken off the list, and the task of a live one is awake. */
  lemma TickServes(s: State, e: Event)
    requires Enabled(s, Tick(e))
    ensures var s' := Do(s, Tick(e));
      && (forall x :: x in s'.timers <==> x in s.timers && x != e) && s'.queues == s.queues && s'.running == s.running
      && (Rec(s.tasks, e.task).ticket == e.ticket ==> !Rec(s'.tasks, e.task).state.Blocked?)
  {
  }

  /** A ready task that is picked runs, and is back from a call that ends there. */
  lemma PickedRuns(s: State, t: Task)
    requires Enabled(s, Pick(t))
    ensures var s' := Do(s, Pick(t));
      && s'.running == Some(t) && Rec(s'.tasks, t).state.Running?
      && (Rec(s.tasks, t).op.Sleep? || Rec(s.tasks, t).op.Timed? ==> Rec(s'.tasks, t).op.Free?)
      && forall u: Task :: u != t ==> Rec(s'.tasks, u) == Rec(s.tasks, u)
  {
  }

  /** `wait` returns once it runs again, `wait_until` as soon as its loop finds the condition true. */
  lemma WaitReturns(s: State, a: Step)
    requires Enabled(s, a) && (a.EndWait? || a == UntilLoop(true))
    ensures var t := s.running.value;
      Do(s, a).running == Some(t) && Rec(Do(s, a).tasks, t).op.Free? && !Rec(Do(s, a).tasks, t).inWaitQueue
  {
  }

  /** A call that is begun is in progress; a sleeper is blocked, and the others that have not blocked run on. */
  lemma CallBegins(s: State, a: Step)
    requires Enabled(s, a)
    requires a.BeginWait? || a.BeginUntil? || IsTimed(a)
    requires a.BeginSleep? ==> s.now < a.deadline
    ensures var t, s' := s.running.value, Do(s, a);
      && !Rec(s'.tasks, t).op.Free? && !Rec(s'.tasks, t).notified && s'.now == s.now
      && (a.BeginUntil? || a.BeginTimedUntil? ==> s'.running == Some(t))
      && (a.BeginSleep? ==> Rec(s'.tasks, t).state.Blocked? && s'.running.None?)
      && forall u: Task :: u != t ==> Rec(s'.tasks, u) == Rec(s.tasks, u)
  {
  }

  /** The clock goes on, and a preempted task is ready in its call; nothing else changes. */
  lemma TimePasses(s: State, a: Step)
    requires Enabled(s, a) && (a.Advance? || a.Preempt?)
    ensures var s' := Do(s, a);
      && s'.queues == s.queues && s'.timers == s.timers && s'.now == (if a.Advance? then a.to else s.now)
      && (a.Advance? ==> s'.running == s.running && s'.tasks == s.tasks)
      && (a.Preempt? ==>
            var t := s.running.value;
            && s'.running.None? && Rec(s'.tasks, t).state.Ready? && Rec(s'.tasks, t).op == Rec(s.tasks, t).op
            && forall u: Task :: u != t ==> Rec(s'.tasks, u) == Rec(s.tasks, u))
  {
  }

  /** A running task outside blocking calls may begin any; somebody may always notify, and a ready task be picked. */
  lemma CallsArePossible(s: State, q: Queue, n: nat, t: Task)
    ensures Runs(s, Free) ==>
      && Enabled(s, BeginWait(q)) && Enabled(s, BeginUntil(q)) && Enabled(s, BeginTimeout(q, n))
      && Enabled(s, BeginTimedUntil(q, n)) && Enabled(s, BeginSleep(n))
    ensures Enabled(s, Notify(q)) && Enabled(s, Advance(s.now + n))
    ensures s.running.None? && Rec(s.tasks, t).state.Ready? ==> Enabled(s, Pick(t))
    ensures forall e :: e in s.timers && e.deadline <= s.now ==> Enabled(s, Tick(e))
    ensures s.running == Some(t) ==>
      var op := Rec(s.tasks, t).op;
      && Enabled(s, Preempt) && (op.Wait? ==> Enabled(s, EndWait))
      && (op.WaitUntil? ==> Enabled(s, UntilLoop(true)) && Enabled(s, UntilLoop(false)))
      && (op.TimedUntil? ==> Enabled(s, TimedLoop(true)) && Enabled(s, TimedLoop(false)))
      && (op.Ending? ==> Enabled(s, EndTimedUntil))
  {
  }
}
