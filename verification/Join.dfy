/**
 `join` against `exit_current`, on two CPUs: the exiting task marks itself Exited, then
 stores its exit code, then wakes the joiners; the joiner tests the mark and loads the code.
 */
module Join {
  import opened Common

  datatype Joiner = Testing | Asleep | Loading | Done(code: int)

  /** How far the exiting task is. */
  datatype Exiter = Alive | Marked | Stored | Woke

  datatype State = State(exiter: Exiter, joiner: Joiner, code: int, slept: bool)

  datatype Step = Mark | Store | Wake | Test | Load

  const Start := State(Alive, Testing, 0, false)

  predicate Enabled(s: State, a: Step) {
    match a
    case Mark => s.exiter.Alive?
    case Store => s.exiter.Marked?
    case Wake => s.exiter.Stored?
    case Test => s.joiner.Testing?
    case Load => s.joiner.Loading?
  }

  /** `exit` is the argument of `exit_current`. */
  function Do(s: State, a: Step, exit: int): State
    requires Enabled(s, a)
  {
    match a
    case Mark => s.(exiter := Marked)
    case Store => s.(exiter := Stored, code := exit)
    case Wake => s.(exiter := Woke, joiner := if s.joiner.Asleep? then Testing else s.joiner)
    case Test => if s.exiter.Alive? then s.(joiner := Asleep, slept := true) else s.(joiner := Loading)
    case Load => s.(joiner := Done(s.code))
  }

  function Exec(s: State, steps: seq<Step>, exit: int): Option<State>
    decreases |steps|
  {
    if steps == [] then Some(s)
    else if Enabled(s, steps[0]) then Exec(Do(s, steps[0], exit), steps[1..], exit)
    else None
  }

  /** The code is stored before it is loaded. */
  predicate StoredFirst(steps: seq<Step>) {
    steps != [] && (steps[0].Store? || (!steps[0].Load? && StoredFirst(steps[1..])))
  }

  ghost predicate Inv(s: State, exit: int) {
    && (s.exiter.Alive? || s.exiter.Marked? ==> s.code == 0)
    && (s.exiter.Stored? || s.exiter.Woke? ==> s.code == exit)
    && (s.exiter.Woke? ==> !s.joiner.Asleep?)
    && (s.exiter.Alive? ==> !s.joiner.Loading? && !s.joiner.Done?)
    && (s.slept && !s.joiner.Asleep? ==> s.exiter.Woke?)
    && (s.joiner.Done? && s.slept ==> s.joiner.code == exit)
  }

  lemma {:induction false} RunKeeps(s: State, steps: seq<Step>, exit: int)
    requires Inv(s, exit) && Exec(s, steps, exit).Some?
    ensures Inv(Exec(s, steps, exit).value, exit)
    decreases |steps|
  {
    if steps != [] {
      RunKeeps(Do(s, steps[0], exit), steps[1..], exit);
    }
  }

  lemma {:induction false} DoneStaysDone(s: State, steps: seq<Step>, exit: int)
    requires s.joiner.Done? && Exec(s, steps, exit).Some?
    ensures Exec(s, steps, exit).value.joiner == s.joiner
    decreases |steps|
  {
    if steps != [] {
      DoneStaysDone(Do(s, steps[0], exit), steps[1..], exit);
    }
  }

  lemma {:induction false} ResultFrom(s: State, steps: seq<Step>, exit: int)
    requires Inv(s, exit) && !s.joiner.Done?
    requires Exec(s, steps, exit).Some? && Exec(s, steps, exit).value.joiner.Done?
    ensures var stored := s.exiter.Stored? || s.exiter.Woke? || StoredFirst(steps);
      Exec(s, steps, exit).value.joiner.code == if stored then exit else 0
    decreases |steps|
  {
    var s' := Do(s, steps[0], exit);
    if steps[0].Load? {
      DoneStaysDone(s', steps[1..], exit);
    } else {
      ResultFrom(s', steps[1..], exit);
    }
  }

  /** In one run `join` returns the exit code just when it is 0 or the store came before the load. */
  lemma JoinInOneRun(steps: seq<Step>, exit: int)
    requires Exec(Start, steps, exit).Some? && Exec(Start, steps, exit).value.joiner.Done?
    ensures Exec(Start, steps, exit).value.joiner.code == exit <==> exit == 0 || StoredFirst(steps)
  {
    ResultFrom(Start, steps, exit);
  }

  /** What `join` returns in a run from state `s`, if it returns. */
  function Returned(s: State, steps: seq<Step>, exit: int): Option<int> {
    match Exec(s, steps, exit)
    case None => None
    case Some(s') => if s'.joiner.Done? then Some(s'.joiner.code) else None
  }

  lemma TestThenLoad(s: State, exit: int)
    requires s.exiter.Marked? && s.joiner.Testing? && s.code == 0
    ensures Returned(s, [Test, Load], exit) == Some(0)
  {
    var s1 := Do(s, Test, exit);
    assert [Test, Load][1..] == [Load] && [Load][1..] == [];
    assert Exec(s1, [Load], exit) == Exec(Do(s1, Load, exit), [], exit);
  }

  /**
   A call of `join` is sure to return the exit code if and only if the code is 0, or the
   exiting task has already stored it when `join` tests its state.
   */
  lemma JoinReturnsCodeIff(before: seq<Step>, exit: int)
    requires Exec(Start, before, exit).Some? && Exec(Start, before, exit).value.joiner.Testing?
    ensures var s := Exec(Start, before, exit).value;
      (forall steps :: Returned(s, steps, exit).Some? ==> Returned(s, steps, exit).value == exit)
        <==> exit == 0 || s.exiter.Stored? || s.exiter.Woke?
  {
    RunKeeps(Start, before, exit);
    var s := Exec(Start, before, exit).value;
    if s.exiter.Marked? {
      TestThenLoad(s, exit);
    } else if s.exiter.Alive? {
      var s1 := Do(s, Mark, exit);
      TestThenLoad(s1, exit);
      assert [Mark, Test, Load][1..] == [Test, Load];
      assert Returned(s, [Mark, Test, Load], exit) == Returned(s1, [Test, Load], exit);
    }
    forall steps | Returned(s, steps, exit).Some? && (exit == 0 || s.exiter.Stored? || s.exiter.Woke?)
      ensures Returned(s, steps, exit).value == exit
    {
      ResultFrom(s, steps, exit);
    }
  }

  /** A run in which another CPU joins between the mark and the store. */
  lemma JoinCanMissTheCode(exit: int)
    ensures Exec(Start, [Mark, Test, Load], exit) == Some(State(Marked, Done(0), 0, false))
  {
    var s1 := Do(Start, Mark, exit);
    var s2 := Do(s1, Test, exit);
    assert Exec(s2, [Load], exit) == Some(Do(s2, Load, exit)) by {
      assert [Load][1..] == [];
    }
    assert [Mark, Test, Load][1..] == [Test, Load] && [Test, Load][1..] == [Load];
  }

  /** On one CPU `exit_current` runs with IRQs off, so nothing comes between mark and store. */
  predicate OneCpu(steps: seq<Step>) {
    forall i :: 0 <= i < |steps| && steps[i].Mark? ==> i + 1 < |steps| && steps[i + 1].Store?
  }

  lemma {:induction false} OneCpuStoresFirst(s: State, steps: seq<Step>, exit: int)
    requires OneCpu(steps) && Inv(s, exit) && s.exiter.Alive?
    requires Exec(s, steps, exit).Some? && Exec(s, steps, exit).value.joiner.Done?
    ensures StoredFirst(steps)
    decreases |steps|
  {
    assert steps != [];
    if steps[0].Mark? {
      assert steps[1].Store?;
      assert StoredFirst(steps[1..]);
    } else {
      forall i | 0 <= i < |steps[1..]| && steps[1..][i].Mark?
        ensures i + 1 < |steps[1..]| && steps[1..][i + 1].Store?
      {
        assert steps[i + 1].Mark?;
      }
      OneCpuStoresFirst(Do(s, steps[0], exit), steps[1..], exit);
    }
  }

  lemma JoinOnOneCpu(steps: seq<Step>, exit: int)
    requires OneCpu(steps)
    requires Exec(Start, steps, exit).Some? && Exec(Start, steps, exit).value.joiner.Done?
    ensures Exec(Start, steps, exit).value.joiner.code == exit
  {
    OneCpuStoresFirst(Start, steps, exit);
    JoinInOneRun(steps, exit);
  }

  /** A joiner that had to sleep is woken after the store: it never hangs and gets the code. */
  lemma SleepingJoiner(steps: seq<Step>, exit: int)
    requires Exec(Start, steps, exit).Some? && Exec(Start, steps, exit).value.slept
    ensures var s := Exec(Start, steps, exit).value;
      (s.exiter.Woke? ==> !s.joiner.Asleep?) && (s.joiner.Done? ==> s.joiner.code == exit)
  {
    RunKeeps(Start, steps, exit);
  }
}
