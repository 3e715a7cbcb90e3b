/**
 The sleeping mutex and its wait queue as a transition system over any number of tasks:
 one step per atomic operation on the owner word, per lock or unlock of the wait queue, and
 per access to the protected data.
 */
module Mutex {
  import opened Common

  type Task = nat

  /** Where a task is in `lock`, in the critical section or in `force_unlock`. */
  datatype Pc =
    | Out                    // does not use the mutex
    | Cas                    // about to try `compare_exchange_weak`
    | Check                  // in `wait_until`, about to lock the wait queue
    | Testing                // holds the wait queue, about to test whether the mutex is locked
    | Pushing                // holds the wait queue, has seen the mutex locked
    | Asleep                 // blocked in the wait queue
    | Inside                 // holds the mutex
    | Loaded(value: int)     // holds the mutex and has read the data
    | Swapped                // has stored 0 into the owner word, about to notify
    | Popping                // holds the wait queue to notify

  datatype State = State(
    owner: Task,                  // `owner_id`, 0 when unlocked
    wqLock: Option<Task>,         // who holds the spin lock of the wait queue
    queue: seq<Task>,
    pc: map<Task, Pc>,
    data: int
  )

  /** Task ids start at 1. */
  datatype Step =
    | Lock(t: Task)
    | TryLock(t: Task)
    | CasOk(t: Task)
    | CasFail(t: Task)            // also spuriously
    | LockQueue(t: Task)
    | SeesFree(t: Task)
    | SeesLocked(t: Task)
    | Push(t: Task)
    | Load(t: Task)
    | Store(t: Task, delta: int)
    | Swap(t: Task)
    | LockToNotify(t: Task)
    | Pop(t: Task)

  function At(pc: map<Task, Pc>, t: Task): Pc {
    if t in pc then pc[t] else Out
  }

  function Goto(pc: map<Task, Pc>, t: Task, p: Pc): (pc': map<Task, Pc>)
    ensures forall u: Task :: At(pc', u) == if u == t then p else At(pc, u)
  {
    pc[t := p]
  }

  const Unlocked := State(0, None, [], map[], 0)

  predicate Enabled(s: State, a: Step) {
    a.t > 0 &&
    match a
    case Lock(t) => At(s.pc, t).Out?
    case TryLock(t) => At(s.pc, t).Out?
    case CasOk(t) => At(s.pc, t).Cas? && s.owner == 0
    case CasFail(t) => At(s.pc, t).Cas?
    case LockQueue(t) => At(s.pc, t).Check? && s.wqLock.None?
    case SeesFree(t) => At(s.pc, t).Testing? && s.owner == 0
    case SeesLocked(t) => At(s.pc, t).Testing? && s.owner != 0
    case Push(t) => At(s.pc, t).Pushing?
    case Load(t) => At(s.pc, t).Inside?
    case Store(t, _) => At(s.pc, t).Loaded?
    case Swap(t) => At(s.pc, t).Inside?
    case LockToNotify(t) => At(s.pc, t).Swapped? && s.wqLock.None?
    case Pop(t) => At(s.pc, t).Popping?
  }

  function Do(s: State, a: Step): State
    requires Enabled(s, a)
  {
    match a
    case Lock(t) => s.(pc := Goto(s.pc, t, Cas))
    case TryLock(t) => if s.owner == 0 then s.(owner := t, pc := Goto(s.pc, t, Inside)) else s
    case CasOk(t) => s.(owner := t, pc := Goto(s.pc, t, Inside))
    case CasFail(t) => s.(pc := Goto(s.pc, t, Check))
    case LockQueue(t) => s.(wqLock := Some(t), pc := Goto(s.pc, t, Testing))
    case SeesFree(t) => s.(wqLock := None, pc := Goto(s.pc, t, Cas))
    case SeesLocked(t) => s.(pc := Goto(s.pc, t, Pushing))
    case Push(t) => s.(queue := s.queue + [t], wqLock := None, pc := Goto(s.pc, t, Asleep))
    case Load(t) => s.(pc := Goto(s.pc, t, Loaded(s.data)))
    case Store(t, delta) => s.(data := At(s.pc, t).value + delta, pc := Goto(s.pc, t, Inside))
    case Swap(t) => s.(owner := 0, pc := Goto(s.pc, t, Swapped))
    case LockToNotify(t) => s.(wqLock := Some(t), pc := Goto(s.pc, t, Popping))
    case Pop(t) =>
      if s.queue == [] then s.(wqLock := None, pc := Goto(s.pc, t, Out))
      else s.(queue := s.queue[1..], wqLock := None, pc := Goto(Goto(s.pc, t, Out), s.queue[0], Check))
  }

  // ---------------------------------------------------------------- invariant

  predicate HoldsMutex(p: Pc) {
    p.Inside? || p.Loaded?
  }

  predicate HoldsQueue(p: Pc) {
    p.Testing? || p.Pushing? || p.Popping?
  }

  /** Tasks that will look at the owner word, or notify, without being woken. */
  predicate Awake(p: Pc) {
    p.Cas? || p.Check? || p.Testing? || p.Swapped? || p.Popping?
  }

  /** The owner word names exactly the task inside, which has seen the last value stored. */
  ghost predicate Exclusion(s: State) {
    forall t: Task :: (HoldsMutex(At(s.pc, t)) <==> t == s.owner && t != 0)
             && (At(s.pc, t).Loaded? ==> At(s.pc, t).value == s.data)
  }

  /** The wait queue holds each sleeping task once, and one task at a time uses it. */
  ghost predicate QueueOk(s: State) {
    && (forall t: Task :: t in s.queue <==> At(s.pc, t).Asleep?)
    && (forall i, j :: 0 <= i < j < |s.queue| ==> s.queue[i] != s.queue[j])
    && (forall t: Task :: HoldsQueue(At(s.pc, t)) <==> s.wqLock == Some(t))
    && At(s.pc, 0).Out?
  }

  /** If somebody sleeps, or is going to, the mutex is locked or somebody awake will see to it. */
  ghost predicate NoLostWakeup(s: State) {
    (exists t: Task :: At(s.pc, t).Asleep? || At(s.pc, t).Pushing?) ==>
      s.owner != 0 || exists u: Task :: Awake(At(s.pc, u))
  }

  ghost predicate Inv(s: State) {
    Exclusion(s) && QueueOk(s) && NoLostWakeup(s)
  }

  lemma KeepsExclusion(s: State, a: Step)
    requires Exclusion(s) && QueueOk(s) && Enabled(s, a)
    ensures Exclusion(Do(s, a))
  {
    if a.Pop? && s.queue != [] {
      assert At(s.pc, s.queue[0]).Asleep?;
    }
  }

  lemma KeepsQueue(s: State, a: Step)
    requires QueueOk(s) && Enabled(s, a)
    ensures QueueOk(Do(s, a))
  {
  }

  lemma KeepsWakeup(s: State, a: Step)
    requires Inv(s) && Enabled(s, a)
    ensures NoLostWakeup(Do(s, a))
  {
    var s' := Do(s, a);
    if a.Pop? && s.queue != [] {
      assert Awake(At(s'.pc, s.queue[0]));
    } else if !Awake(At(s'.pc, a.t)) && s.owner == 0 && (exists u: Task :: Awake(At(s.pc, u))) {
      var u: Task :| Awake(At(s.pc, u));
      assert u != a.t ==> Awake(At(s'.pc, u));
    }
  }

  // ---------------------------------------------------------------- every run

  /** The state after the given steps, unless one of them was not possible. */
  function Exec(s: State, steps: seq<Step>): Option<State>
    decreases |steps|
  {
    if steps == [] then Some(s)
    else if Enabled(s, steps[0]) then Exec(Do(s, steps[0]), steps[1..])
    else None
  }

  /** What the increments of the steps add up to. */
  function Stored(steps: seq<Step>): int {
    if steps == [] then 0 else (if steps[0].Store? then steps[0].delta else 0) + Stored(steps[1..])
  }

  lemma {:induction false} RunKeeps(s: State, steps: seq<Step>)
    requires Inv(s) && Exec(s, steps).Some?
    ensures Inv(Exec(s, steps).value)
    ensures Exec(s, steps).value.data == s.data + Stored(steps)
    decreases |steps|
  {
    if steps != [] {
      var a := steps[0];
      KeepsExclusion(s, a);
      KeepsQueue(s, a);
      KeepsWakeup(s, a);
      assert Do(s, a).data == s.data + if a.Store? then a.delta else 0;
      RunKeeps(Do(s, a), steps[1..]);
    }
  }

  /** Mutual exclusion: never two tasks between `lock` and `force_unlock`. */
  lemma MutualExclusion(steps: seq<Step>, t: Task, u: Task)
    requires Exec(Unlocked, steps).Some?
    requires var s := Exec(Unlocked, steps).value; HoldsMutex(At(s.pc, t)) && HoldsMutex(At(s.pc, u))
    ensures t == u && Exec(Unlocked, steps).value.owner == t
  {
    RunKeeps(Unlocked, steps);
  }

  /** No update is lost, whatever the interleaving. */
  lemma NoLostUpdate(steps: seq<Step>)
    requires Exec(Unlocked, steps).Some?
    ensures Exec(Unlocked, steps).value.data == Stored(steps)
  {
    RunKeeps(Unlocked, steps);
  }

  /** The two assertions: a task that fails to lock is not the owner, one that unlocks is. */
  lemma OwnerAssertions(steps: seq<Step>, t: Task)
    requires Exec(Unlocked, steps).Some? && t > 0
    ensures var s := Exec(Unlocked, steps).value;
      (At(s.pc, t).Cas? ==> s.owner != t) && (At(s.pc, t).Inside? ==> s.owner == t)
  {
    RunKeeps(Unlocked, steps);
  }

  /** A task that is not outside the mutex can always move if it is awake and nobody holds the queue. */
  ghost predicate CanMove(s: State, t: Task) {
    exists a: Step :: a.t == t && Enabled(s, a)
  }

  lemma HolderMoves(s: State, t: Task)
    requires Inv(s) && (HoldsMutex(At(s.pc, t)) || HoldsQueue(At(s.pc, t)))
    ensures CanMove(s, t)
  {
    match At(s.pc, t)
    case Testing => assert Enabled(s, if s.owner == 0 then SeesFree(t) else SeesLocked(t));
    case Pushing => assert Enabled(s, Push(t));
    case Popping => assert Enabled(s, Pop(t));
    case Inside => assert Enabled(s, Swap(t));
    case Loaded(_) => assert Enabled(s, Store(t, 0));
  }

  lemma AwakeMoves(s: State, t: Task)
    requires Inv(s) && Awake(At(s.pc, t)) && s.wqLock.None?
    ensures CanMove(s, t)
  {
    match At(s.pc, t)
    case Cas => assert Enabled(s, CasFail(t));
    case Check => assert Enabled(s, LockQueue(t));
    case Testing => HolderMoves(s, t);
    case Swapped => assert Enabled(s, LockToNotify(t));
    case Popping => HolderMoves(s, t);
  }

  /** Whenever a task sleeps, some task already inside the protocol and not asleep can move. */
  lemma NoDeadlock(steps: seq<Step>, t: Task) returns (u: Task)
    requires Exec(Unlocked, steps).Some? && At(Exec(Unlocked, steps).value.pc, t).Asleep?
    ensures var s := Exec(Unlocked, steps).value;
      !At(s.pc, u).Out? && !At(s.pc, u).Asleep? && CanMove(s, u)
  {
    RunKeeps(Unlocked, steps);
    var s := Exec(Unlocked, steps).value;
    if s.wqLock.Some? {
      u := s.wqLock.value;
      HolderMoves(s, u);
    } else if s.owner != 0 {
      u := s.owner;
      HolderMoves(s, u);
    } else {
      u :| Awake(At(s.pc, u));
      AwakeMoves(s, u);
    }
  }

  // ---------------------------------------------------------------- every sleeper can be woken

  ghost predicate Anyone(s: State, p: Pc) {
    exists t: Task :: At(s.pc, t) == p
  }

  /** How far the first sleeper is from being popped, if the right tasks move. */
  ghost function Rank(s: State): nat {
    if s.wqLock.Some? then
      var p := At(s.pc, s.wqLock.value);
      if p.Popping? then 0 else if p.Testing? && s.owner == 0 then 6 else if p.Testing? then 9 else 8
    else if s.owner != 0 then (if At(s.pc, s.owner).Loaded? then 4 else 3)
    else if Anyone(s, Swapped) then 1
    else if Anyone(s, Cas) then 5
    else 7
  }

  lemma KeepsInv(s: State, a: Step)
    requires Inv(s) && Enabled(s, a)
    ensures Inv(Do(s, a))
  {
    KeepsExclusion(s, a);
    KeepsQueue(s, a);
    KeepsWakeup(s, a);
  }

  /** The holder of the wait queue lets go of it, or pops. */
  lemma HolderNearer(s: State) returns (a: Step)
    requires Inv(s) && s.queue != [] && s.wqLock.Some?
    ensures Enabled(s, a) && (a.Pop? || (Rank(Do(s, a)) < Rank(s) && s.queue <= Do(s, a).queue))
  {
    var t := s.wqLock.value;
    assert HoldsQueue(At(s.pc, t));
    match At(s.pc, t) {
      case Popping => a := Pop(t);
      case Pushing => a := Push(t);
      case Testing => a := if s.owner == 0 then SeesFree(t) else SeesLocked(t);
    }
    if a.SeesFree? {
      assert At(Do(s, a).pc, t) == Cas;
    }
  }

  /** With the wait queue free, its owner, or a task that is awake, moves towards a notify. */
  lemma OthersNearer(s: State) returns (a: Step)
    requires Inv(s) && s.queue != [] && s.wqLock.None?
    ensures Enabled(s, a) && Rank(Do(s, a)) < Rank(s) && s.queue <= Do(s, a).queue
  {
    assert At(s.pc, s.queue[0]).Asleep?;
    if s.owner != 0 {
      a := if At(s.pc, s.owner).Loaded? then Store(s.owner, 0) else Swap(s.owner);
      assert a.Swap? ==> At(Do(s, a).pc, s.owner) == Swapped;
    } else if Anyone(s, Swapped) {
      var u: Task :| At(s.pc, u) == Swapped;
      a := LockToNotify(u);
    } else if Anyone(s, Cas) {
      var u: Task :| At(s.pc, u) == Cas;
      a := CasOk(u);
    } else {
      var u: Task :| Awake(At(s.pc, u));
      a := LockQueue(u);
    }
  }

  lemma {:induction false} ExecConcat(s: State, a: seq<Step>, b: seq<Step>)
    requires Exec(s, a).Some?
    ensures Exec(s, a + b) == Exec(Exec(s, a).value, b)
    decreases |a|
  {
    if a == [] {
      assert [] + b == b;
    } else {
      ExecConcat(Do(s, a[0]), a[1..], b);
      assert (a + b)[1..] == a[1..] + b;
    }
  }

  lemma ExecFirst(s: State, a: Step, rest: seq<Step>)
    requires Enabled(s, a)
    ensures Exec(s, [a] + rest) == Exec(Do(s, a), rest)
  {
    assert ([a] + rest)[1..] == rest;
  }

  /** The first sleeper can be popped; the others keep their order. */
  lemma {:induction false} PopSoon(s: State) returns (steps: seq<Step>)
    requires Inv(s) && s.queue != []
    ensures Exec(s, steps).Some? && Inv(Exec(s, steps).value)
    ensures s.queue[1..] <= Exec(s, steps).value.queue && At(Exec(s, steps).value.pc, s.queue[0]).Check?
    decreases Rank(s)
  {
    var a: Step;
    if s.wqLock.Some? {
      a := HolderNearer(s);
    } else {
      a := OthersNearer(s);
    }
    KeepsInv(s, a);
    if a.Pop? {
      steps := [a];
      ExecFirst(s, a, []);
      assert [a] + [] == [a];
    } else {
      var rest := PopSoon(Do(s, a));
      steps := [a] + rest;
      ExecFirst(s, a, rest);
    }
  }

  lemma {:induction false} WakesUp(s: State, t: Task, i: nat) returns (steps: seq<Step>)
    requires Inv(s) && i < |s.queue| && s.queue[i] == t
    ensures Exec(s, steps).Some? && At(Exec(s, steps).value.pc, t).Check?
    decreases i
  {
    steps := PopSoon(s);
    if i > 0 {
      var s' := Exec(s, steps).value;
      assert s.queue[1..][i - 1] == t;
      var more := WakesUp(s', t, i - 1);
      ExecConcat(s, steps, more);
      steps := steps + more;
    }
  }

  /** From every reachable state, every sleeper has a continuation in which it wakes up and looks again. */
  lemma SleeperCanWake(steps: seq<Step>, t: Task) returns (more: seq<Step>)
    requires Exec(Unlocked, steps).Some? && At(Exec(Unlocked, steps).value.pc, t).Asleep?
    ensures Exec(Unlocked, steps + more).Some? && At(Exec(Unlocked, steps + more).value.pc, t).Check?
  {
    RunKeeps(Unlocked, steps);
    var s := Exec(Unlocked, steps).value;
    assert t in s.queue;
    var i: nat :| i < |s.queue| && s.queue[i] == t;
    more := WakesUp(s, t, i);
    ExecConcat(Unlocked, steps, more);
  }

  // ---------------------------------------------------------------- what a call does

  /** Between the call of `lock` and its return. */
  predicate InLock(p: Pc) {
    p.Cas? || p.Check? || p.Testing? || p.Pushing? || p.Asleep?
  }

  predicate Owns(s: State, t: Task) {
    At(s.pc, t).Inside? && s.owner == t
  }

  /** One step: a task leaves `lock` only by getting the mutex, and wakes up only as the first of the queue. */
  lemma LockStep(s: State, a: Step, t: Task)
    requires Inv(s) && Enabled(s, a) && InLock(At(s.pc, t))
    ensures InLock(At(Do(s, a).pc, t)) || Owns(Do(s, a), t)
    ensures At(s.pc, t).Asleep? && !At(Do(s, a).pc, t).Asleep? ==> a.Pop? && s.queue[0] == t
  {
    if a.Pop? && s.queue != [] {
      assert At(s.pc, s.queue[0]).Asleep?;
    }
  }

  /** At some state of the run from `s` the task has got the mutex. */
  predicate Acquires(s: State, steps: seq<Step>, t: Task)
    decreases |steps|
  {
    && steps != [] && Enabled(s, steps[0])
    && (Owns(Do(s, steps[0]), t) || Acquires(Do(s, steps[0]), steps[1..], t))
  }

  lemma {:induction false} LockRun(s: State, steps: seq<Step>, t: Task)
    requires Inv(s) && InLock(At(s.pc, t)) && Exec(s, steps).Some?
    ensures InLock(At(Exec(s, steps).value.pc, t)) || Acquires(s, steps, t)
    decreases |steps|
  {
    if steps != [] {
      KeepsInv(s, steps[0]);
      LockStep(s, steps[0], t);
      if !Owns(Do(s, steps[0]), t) {
        LockRun(Do(s, steps[0]), steps[1..], t);
      }
    }
  }

  /** In every run, a task that has called `lock` is still in it unless it has owned the mutex since. */
  lemma LockReturnsOwning(before: seq<Step>, t: Task, after: seq<Step>)
    requires Exec(Unlocked, before + ([Lock(t)] + after)).Some? && Exec(Unlocked, before).Some?
    ensures var s := Exec(Unlocked, before).value;
      InLock(At(Exec(Unlocked, before + ([Lock(t)] + after)).value.pc, t)) || Acquires(s, [Lock(t)] + after, t)
  {
    var s := Exec(Unlocked, before).value;
    RunKeeps(Unlocked, before);
    ExecConcat(Unlocked, before, [Lock(t)] + after);
    assert ([Lock(t)] + after)[1..] == after && ([Lock(t)] + after)[0] == Lock(t);
    KeepsInv(s, Lock(t));
    LockRun(Do(s, Lock(t)), after, t);
  }

  /** `try_lock` takes a free mutex at once, and does nothing to a locked one. */
  lemma TryLockIff(s: State, t: Task)
    requires Enabled(s, TryLock(t))
    ensures var s' := Do(s, TryLock(t));
      && (s.owner == 0 ==>
            Owns(s', t) && s'.queue == s.queue && s'.data == s.data && s'.wqLock == s.wqLock
            && forall u: Task :: u != t ==> At(s'.pc, u) == At(s.pc, u))
      && (s.owner != 0 ==> s' == s)
  {
  }

  lemma ExecThree(s: State, a: Step, b: Step, c: Step)
    requires Enabled(s, a) && Enabled(Do(s, a), b) && Enabled(Do(Do(s, a), b), c)
    ensures Exec(s, [a, b, c]) == Some(Do(Do(Do(s, a), b), c))
  {
    ExecFirst(s, a, [b, c]);
    ExecFirst(Do(s, a), b, [c]);
    ExecFirst(Do(Do(s, a), b), c, []);
    assert [a] + [b, c] == [a, b, c] && [b] + [c] == [b, c] && [c] + [] == [c];
  }

  lemma ExecFour(s: State, a: Step, b: Step, c: Step, d: Step)
    requires Enabled(s, a) && Enabled(Do(s, a), b) && Enabled(Do(Do(s, a), b), c)
    requires Enabled(Do(Do(Do(s, a), b), c), d)
    ensures Exec(s, [a, b, c, d]) == Some(Do(Do(Do(Do(s, a), b), c), d))
  {
    ExecFirst(s, a, [b, c, d]);
    ExecThree(Do(s, a), b, c, d);
    assert [a] + [b, c, d] == [a, b, c, d];
  }

  /** A `lock` that finds the mutex taken, with the wait queue free, falls asleep at the end of the queue. */
  lemma ContendedSleeps(s: State, t: Task)
    requires Inv(s) && t > 0 && At(s.pc, t).Cas? && s.owner != 0 && s.wqLock.None?
    ensures var r := Exec(s, [CasFail(t), LockQueue(t), SeesLocked(t), Push(t)]);
      && r.Some? && At(r.value.pc, t).Asleep? && r.value.queue == s.queue + [t] && r.value.wqLock.None?
      && r.value.owner == s.owner && forall u: Task :: u != t ==> At(r.value.pc, u) == At(s.pc, u)
  {
    ExecFour(s, CasFail(t), LockQueue(t), SeesLocked(t), Push(t));
  }

  /** A task that has been woken gets a mutex that is free, with the wait queue free. */
  lemma WokenTakes(s: State, t: Task)
    requires Inv(s) && t > 0 && At(s.pc, t).Check? && s.owner == 0 && s.wqLock.None?
    ensures var r := Exec(s, [LockQueue(t), SeesFree(t), CasOk(t)]);
      r.Some? && Owns(r.value, t) && r.value.queue == s.queue && r.value.wqLock.None?
  {
    ExecThree(s, LockQueue(t), SeesFree(t), CasOk(t));
  }

  /** `force_unlock`, with the wait queue free: the mutex is free, the call has returned, the first sleeper is awake. */
  lemma UnlockWakesFirst(s: State, t: Task)
    requires Inv(s) && At(s.pc, t).Inside? && s.wqLock.None?
    ensures var r := Exec(s, [Swap(t), LockToNotify(t), Pop(t)]);
      && r.Some? && r.value.owner == 0 && At(r.value.pc, t).Out? && r.value.wqLock.None? && r.value.data == s.data
      && (if s.queue == [] then r.value.queue == []
          else r.value.queue == s.queue[1..] && At(r.value.pc, s.queue[0]).Check?)
      && forall u: Task :: u != t && (s.queue == [] || u != s.queue[0]) ==> At(r.value.pc, u) == At(s.pc, u)
  {
    assert s.queue != [] ==> At(s.pc, s.queue[0]).Asleep?;
    ExecThree(s, Swap(t), LockToNotify(t), Pop(t));
  }

  /** The task inside can add to the data, and stays inside. */
  lemma InsideAdds(s: State, t: Task, delta: int)
    requires Inv(s) && t > 0 && At(s.pc, t).Inside?
    ensures var r := Exec(s, [Load(t), Store(t, delta)]);
      r.Some? && r.value.data == s.data + delta && Owns(r.value, t) && r.value.queue == s.queue
  {
    ExecFirst(s, Load(t), [Store(t, delta)]);
    ExecFirst(Do(s, Load(t)), Store(t, delta), []);
    assert [Load(t)] + [Store(t, delta)] == [Load(t), Store(t, delta)] && [Store(t, delta)] + [] == [Store(t, delta)];
  }
}
