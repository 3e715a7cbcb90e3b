/**
 What a run of the SMP scheduler makes of the calls in it: masks that are asked for are
 obeyed, and references that are taken and dropped are counted.
 */
module SmpAffinity {
  import opened Common
  import opened SmpInvariant
  import opened SmpKernel
  import opened SmpSafety

  // ---------------------------------------------------------------- masks

  /** With this step task `t` itself asks for a mask. */
  ghost predicate SetsMask(s: Kernel, a: Step, t: Task) {
    a.SetAffinity? && a.c < |s.cpu| && s.cpu[a.c].current == t
  }

  /** With this step task `t` is to be kept to the CPUs of `mask`: it asks for it, or is spawned with it. */
  ghost predicate Asks(s: Kernel, a: Step, t: Task, mask: set<Cpu>) {
    (SetsMask(s, a, t) && a.mask == mask) || (a.Spawn? && a.t == t && a.mask == mask)
  }

  /** Task `t` is queued, picked or current on CPU `d`. */
  ghost predicate IsOn(s: Kernel, t: Task, d: Cpu) {
    LiesAt(s, t, Queue(d)) || LiesAt(s, t, Next(d)) || LiesAt(s, t, Cur(d))
  }

  lemma MaskBySwitch(s: Kernel, a: Step, t: Task)
    requires t in s.tasks && Enabled(s, a) && IsSwitchStep(a)
    ensures t in Do(s, a).tasks && Do(s, a).tasks[t].cpumask == s.tasks[t].cpumask
  {
  }

  /** No other step changes a mask. */
  lemma MaskKept(s: Kernel, a: Step, t: Task)
    requires t in s.tasks && Enabled(s, a) && !SetsMask(s, a, t)
    ensures t in Do(s, a).tasks && Do(s, a).tasks[t].cpumask == s.tasks[t].cpumask
  {
    if IsSwitchStep(a) {
      MaskBySwitch(s, a, t);
    }
  }

  lemma MaskKeptInRun(states: seq<Kernel>, acts: seq<Step>, k: nat, t: Task)
    requires IsRun(states, acts) && k < |acts| && t in states[k].tasks && !SetsMask(states[k], acts[k], t)
    ensures t in states[k + 1].tasks && states[k + 1].tasks[t].cpumask == states[k].tasks[t].cpumask
  {
    assert Takes(states[k], acts[k], states[k + 1]);
    MaskKept(states[k], acts[k], t);
  }

  lemma {:induction false} MaskStays(states: seq<Kernel>, acts: seq<Step>, i: nat, j: nat, t: Task)
    requires IsRun(states, acts) && i <= j < |states| && t in states[i].tasks
    requires forall k :: i <= k < j ==> !SetsMask(states[k], acts[k], t)
    ensures t in states[j].tasks && states[j].tasks[t].cpumask == states[i].tasks[t].cpumask
    decreases j - i
  {
    if i < j {
      MaskStays(states, acts, i, j - 1, t);
      MaskKeptInRun(states, acts, j - 1, t);
    }
  }

  /** Right after the step the mask stands in the task, and a migration is due just if this CPU is not in it. */
  lemma MaskIsSet(s: Kernel, a: Step, t: Task, mask: set<Cpu>, f: map<Task, Place>, b: map<Task, Cpu>)
    requires Inv(s, f, b) && Enabled(s, a) && Asks(s, a, t, mask)
    ensures t in Do(s, a).tasks && Do(s, a).tasks[t].cpumask == mask
    ensures a.SetAffinity? ==> (t in Do(s, a).unsettled <==> a.c !in mask)
    ensures a.Spawn? ==> t !in Do(s, a).unsettled && LiesAt(Do(s, a), t, Queue(a.target)) && a.target in mask
  {
    KnownCpu(s, f, b, a.c);
    Known(s, f, b, s.cpu[a.c].current);
    Known(s, f, b, t);
  }

  /**
   In every run: from the step in which a task asks for a mask, or is spawned with it, until it
   asks again, it is queued, picked and run on CPUs of that mask only, except while it is on its
   way out of the CPU it asked from; and that is just if this CPU is not in the mask.
   */
  lemma MaskObeyed(states: seq<Kernel>, acts: seq<Step>, i: nat, j: nat, t: Task, mask: set<Cpu>)
    requires IsRun(states, acts) && i < j < |states| && Asks(states[i], acts[i], t, mask)
    requires forall k :: i < k < j ==> !SetsMask(states[k], acts[k], t)
    ensures acts[i].SetAffinity? ==> (t in states[i + 1].unsettled <==> acts[i].c !in mask)
    ensures t !in states[j].unsettled ==> forall d: Cpu :: IsOn(states[j], t, d) ==> d in mask
  {
    var f, b := RunKeeps(states, acts, i);
    assert Takes(states[i], acts[i], states[i + 1]);
    MaskIsSet(states[i], acts[i], t, mask, f, b);
    MaskStays(states, acts, i + 1, j, t);
    f, b := RunKeeps(states, acts, j);
    AffinityHolds(states[j], f, b, t);
  }

  /** A task stops being on its way out only by starting its migration. */
  lemma OnlyMigrationSettles(s: Kernel, a: Step, t: Task)
    requires Enabled(s, a) && t in s.unsettled && t !in Do(s, a).unsettled
    ensures a.StartMigration? && s.cpu[a.c].current == t && Do(s, a).closure == s.closure[a.m := t]
  {
  }

  /** The call returns when the task runs again, on a CPU of its mask, and it is then free to do anything. */
  lemma MigrationReturns(s: Kernel, c: Cpu, f: map<Task, Place>, b: map<Task, Cpu>)
    requires Inv(s, f, b) && CanMigrationDone(s, c)
    ensures var t := s.cpu[c].current;
      && t in s.tasks && c in s.tasks[t].cpumask && t !in DoMigrationDone(s, c).moving
      && DoMigrationDone(s, c).cpu == s.cpu && DoMigrationDone(s, c).tasks == s.tasks
  {
    ChecksHold(s, f, b, c);
  }

  // ---------------------------------------------------------------- references

  /** What a step adds to the references that other code holds to `t`. */
  ghost function Taken(s: Kernel, a: Step, t: Task): int {
    if a.Spawn? && a.t == t then 1
    else if a.TakeHandle? && a.c < |s.cpu| && s.cpu[a.c].current == t then 1
    else if a.DropHandle? && a.t == t then -1
    else 0
  }

  ghost function AllTaken(states: seq<Kernel>, acts: seq<Step>, i: nat, t: Task): int
    requires i <= |acts| < |states|
  {
    if i == 0 then 0 else AllTaken(states, acts, i - 1, t) + Taken(states[i - 1], acts[i - 1], t)
  }

  lemma HandlesBySwitch(s: Kernel, a: Step)
    requires Enabled(s, a) && IsSwitchStep(a)
    ensures Do(s, a).handles == s.handles
  {
  }

  lemma HandlesStep(s: Kernel, a: Step, t: Task)
    requires Enabled(s, a)
    ensures Do(s, a).handles[t] == s.handles[t] + Taken(s, a, t)
  {
    if IsSwitchStep(a) {
      HandlesBySwitch(s, a);
    }
  }

  lemma HandlesInRun(states: seq<Kernel>, acts: seq<Step>, k: nat, t: Task)
    requires IsRun(states, acts) && k < |acts|
    ensures states[k + 1].handles[t] == states[k].handles[t] + Taken(states[k], acts[k], t)
  {
    assert Takes(states[k], acts[k], states[k + 1]);
    HandlesStep(states[k], acts[k], t);
  }

  lemma {:induction false} HandlesAddUp(states: seq<Kernel>, acts: seq<Step>, i: nat, t: Task)
    requires i <= |acts| < |states| && states[0].handles[t] == 0
    requires forall k, l :: 0 <= k < |acts| && l == k + 1 ==>
      states[l].handles[t] == states[k].handles[t] + Taken(states[k], acts[k], t)
    ensures states[i].handles[t] == AllTaken(states, acts, i, t)
  {
    if i > 0 {
      HandlesAddUp(states, acts, i - 1, t);
    }
  }

  /** In every run the references to a task are as many as were taken less those that were dropped. */
  lemma HandlesCounted(states: seq<Kernel>, acts: seq<Step>, i: nat, t: Task)
    requires IsRun(states, acts) && i <= |acts|
    ensures states[i].handles[t] == AllTaken(states, acts, i, t)
  {
    forall k, l | 0 <= k < |acts| && l == k + 1
      ensures states[l].handles[t] == states[k].handles[t] + Taken(states[k], acts[k], t)
    {
      HandlesInRun(states, acts, k, t);
    }
    HandlesAddUp(states, acts, i, t);
  }
}
