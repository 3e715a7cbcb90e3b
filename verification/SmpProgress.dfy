/**
 Waiting for `on_cpu` while holding the lock of a wait queue cannot deadlock: the CPU that
 is waited for is on its way out of the task, never waits itself, and needs at most five
 steps of its own.
 */
module SmpProgress {
  import opened Common
  import opened SmpInvariant
  import opened SmpKernel
  import opened SmpSafety

  /** How many steps of its own a CPU that has given its task away is from clearing `on_cpu`. */
  function Distance(p: Phase): nat {
    match p
    case Resched => 5
    case Switch(_) => 4
    case Claim(_) => 3
    case Swap(_) => 2
    case Clear(_) => 1
    case _ => 0
  }

  /** CPU `c` spins until CPU `d` has left the task it unblocks. */
  ghost predicate SpinsOn(s: Kernel, c: Cpu, d: Cpu) {
    && c < |s.cpu| && d < |s.cpu|
    && s.cpu[c].phase.Spin? && IsOnCpu(s, s.cpu[c].phase.task) && UsesStack(s, d, s.cpu[c].phase.task)
  }

  /** CPU `d` is switching away from task `t`. */
  ghost predicate Leaves(s: Kernel, d: Cpu, t: Task) {
    && d < |s.cpu| && var k := s.cpu[d];
    && 1 <= Distance(k.phase) <= 5
    && (if k.phase.Clear? then k.phase.prev == t else k.current == t)
    && NextOf(k.phase) != Some(t)
    && t !in k.ready && t != k.idle
  }

  lemma SpinnerWaitsForLeaver(s: Kernel, f: map<Task, Place>, b: map<Task, Cpu>, c: Cpu, d: Cpu)
    requires Inv(s, f, b) && SpinsOn(s, c, d)
    ensures c != d && Leaves(s, d, s.cpu[c].phase.task)
  {
    var t := s.cpu[c].phase.task;
    UserIsBound(s, f, b, d, t);
    KnownCpu(s, f, b, c);
    KnownCpu(s, f, b, d);
    Known(s, f, b, t);
  }

  /** The CPU waited for can always move. */
  lemma LeaverCanStep(s: Kernel, d: Cpu, t: Task)
    requires Leaves(s, d, t)
    ensures exists a: Step :: a.c == d && Enabled(s, a)
  {
    match s.cpu[d].phase
    case Resched =>
      if s.cpu[d].ready == multiset{} {
        assert Enabled(s, PickIdle(d));
      } else {
        var u :| u in s.cpu[d].ready;
        assert Enabled(s, Pick(d, u));
      }
    case Switch(_) => assert Enabled(s, SetRunning(d));
    case Claim(_) => assert Enabled(s, SetOnCpu(d));
    case Swap(_) => assert Enabled(s, SwapCurrent(d));
    case Clear(_) => assert Enabled(s, ClearPrev(d));
  }

  lemma OthersStayBySwitch(s: Kernel, a: Step, d: Cpu)
    requires Shape(s) && Enabled(s, a) && d < |s.cpu| && a.c != d && IsSwitchStep(a)
    ensures |Do(s, a).cpu| == |s.cpu|
    ensures Do(s, a).cpu[d].phase == s.cpu[d].phase && Do(s, a).cpu[d].current == s.cpu[d].current
  {
  }

  /** Steps of other CPUs do not move a CPU. */
  lemma OthersStay(s: Kernel, a: Step, d: Cpu)
    requires Shape(s) && Enabled(s, a) && d < |s.cpu| && a.c != d
    ensures |Do(s, a).cpu| == |s.cpu|
    ensures Do(s, a).cpu[d].phase == s.cpu[d].phase && Do(s, a).cpu[d].current == s.cpu[d].current
  {
    if IsSwitchStep(a) {
      OthersStayBySwitch(s, a, d);
    }
  }

  /** On its way out of a task a CPU can only go on with the switch. */
  lemma LeaverSwitches(s: Kernel, a: Step, t: Task)
    requires Enabled(s, a) && Leaves(s, a.c, t)
    ensures a.Pick? || a.PickIdle? || a.SetRunning? || a.SetOnCpu? || a.SwapCurrent? || a.ClearPrev?
  {
  }

  lemma SwitchApproaches(s: Kernel, a: Step, t: Task, s': Kernel)
    requires Enabled(s, a) && Leaves(s, a.c, t) && t in s.tasks && s' == Do(s, a)
    requires a.Pick? || a.PickIdle? || a.SetRunning? || a.SetOnCpu? || a.SwapCurrent? || a.ClearPrev?
    ensures |s'.cpu| == |s.cpu| && Distance(s'.cpu[a.c].phase) == Distance(s.cpu[a.c].phase) - 1
    ensures if s.cpu[a.c].phase.Clear? then !IsOnCpu(s', t) else UsesStack(s', a.c, t)
  {
  }

  /** Each step of the CPU waited for brings it nearer. */
  lemma LeaverApproaches(s: Kernel, a: Step, t: Task)
    requires Enabled(s, a) && Leaves(s, a.c, t) && t in s.tasks
    ensures |Do(s, a).cpu| == |s.cpu|
    ensures Distance(Do(s, a).cpu[a.c].phase) == Distance(s.cpu[a.c].phase) - 1
    ensures if s.cpu[a.c].phase.Clear? then !IsOnCpu(Do(s, a), t) else UsesStack(Do(s, a), a.c, t)
  {
    LeaverSwitches(s, a, t);
    SwitchApproaches(s, a, t, Do(s, a));
  }

  /** A step of a third CPU while `c` spins on `d`. */
  lemma SpinStepOther(s: Kernel, a: Step, c: Cpu, d: Cpu, s': Kernel)
    requires Shape(s) && SpinsOn(s, c, d) && Enabled(s, a) && s' == Do(s, a) && a.c != c && a.c != d
    ensures c < |s'.cpu| == |s.cpu| && s'.cpu[c].phase == s.cpu[c].phase && s'.cpu[d].phase == s.cpu[d].phase
    ensures !IsOnCpu(s', s.cpu[c].phase.task) || SpinsOn(s', c, d)
  {
    OthersStay(s, a, c);
    OthersStay(s, a, d);
  }

  /** One step of any CPU while `c` spins on `d`. */
  lemma SpinStep(s: Kernel, f: map<Task, Place>, b: map<Task, Cpu>, a: Step, c: Cpu, d: Cpu)
    requires Inv(s, f, b) && SpinsOn(s, c, d) && Enabled(s, a)
    ensures var s' := Do(s, a);
      && a.c != c && c < |s'.cpu| && s'.cpu[c].phase == s.cpu[c].phase
      && (!IsOnCpu(s', s.cpu[c].phase.task)
          || (SpinsOn(s', c, d)
              && Distance(s'.cpu[d].phase) == Distance(s.cpu[d].phase) - (if a.c == d then 1 else 0)))
  {
    SpinnerWaitsForLeaver(s, f, b, c, d);
    if a.c == d {
      OthersStay(s, a, c);
      LeaverApproaches(s, a, s.cpu[c].phase.task);
    } else {
      SpinStepOther(s, a, c, d, Do(s, a));
    }
  }

  ghost function StepsOf(steps: seq<Step>, d: Cpu): nat {
    if steps == [] then 0 else (if steps[0].c == d then 1 else 0) + StepsOf(steps[1..], d)
  }

  /** What the spinning CPU waits for. */
  ghost predicate Left(s: Kernel, t: Task) {
    !IsOnCpu(s, t)
  }

  /**
   In every run, once the CPU waited for has made as many steps as its distance (at most
   five), the spin condition has become false, whatever the other CPUs did in between.
   */
  lemma {:induction false} SpinEnds(states: seq<Kernel>, acts: seq<Step>, i: nat, j: nat, c: Cpu, d: Cpu)
    requires IsRun(states, acts) && i <= j <= |acts| && SpinsOn(states[i], c, d)
    requires StepsOf(acts[i..j], d) >= Distance(states[i].cpu[d].phase)
    ensures 1 <= Distance(states[i].cpu[d].phase) <= 5
    ensures exists k :: i <= k <= j && Left(states[k], states[i].cpu[c].phase.task)
    decreases j - i
  {
    var f, b := RunKeeps(states, acts, i);
    var t := states[i].cpu[c].phase.task;
    SpinnerWaitsForLeaver(states[i], f, b, c, d);
    assert i < j && acts[i..j][1..] == acts[i + 1..j];
    assert Takes(states[i], acts[i], states[i + 1]);
    SpinStep(states[i], f, b, acts[i], c, d);
    if IsOnCpu(states[i + 1], t) {
      SpinEnds(states, acts, i + 1, j, c, d);
    } else {
      assert Left(states[i + 1], t);
    }
  }
}
