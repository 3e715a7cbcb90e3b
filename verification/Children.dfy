/**
 The children of a process: `clone` adds one, `wait4` reaps one. `join` waits for the exit
 of a child, so a turn of `wait4` for one child ends with that child exited.
 */
module Children {
  import opened Arith
  import opened Common

  type Pid = nat

  /** An exiting child is marked as exited before it stores its exit code. */
  datatype Life = Alive | Marked | Stored

  /** `code` is what the child exits with. */
  datatype Child = Child(id: Pid, life: Life, code: int)

  /** `exit_code()` */
  function ExitCode(c: Child): int {
    if c.life.Stored? then c.code else 0
  }

  datatype WaitStatus = Exited | Running | NotExist

  /** What `wait_pid` reports: the child reaped with its exit code, or why there is none. */
  datatype Answer = Reaped(id: Pid, code: int) | Failed(status: WaitStatus)

  /** One turn of `wait4`: a return value, an error, or another turn after a yield. */
  datatype Turn = Return(pid: Pid, code: Option<int>) | NoChild | Again

  /** A status word: a 32-bit signed integer with the low byte of the exit code in its second byte and 0 below it. */
  ghost predicate IsStatus(w: int, code: int) {
    && -0x8000_0000 <= w < 0x8000_0000
    && w % 256 == 0 && w / 256 % 256 == code % 256
    && (w - 256 * code) % 0x1_0000_0000 == 0
  }

  /** `exit_code << 8` on a 32-bit signed integer. */
  method StatusWord(code: int) returns (w: int)
    ensures IsStatus(w, code)
  {
    w := (code * 256 + 0x8000_0000) % 0x1_0000_0000 - 0x8000_0000;
    ghost var q := (code * 256 + 0x8000_0000) / 0x1_0000_0000;
    assert w == 256 * (code - 0x100_0000 * q);
    DivModUnique(w, 256, code - 0x100_0000 * q, 0);
    DivModUnique(code - 0x100_0000 * q, 256, code / 256 - 0x1_0000 * q, code % 256);
    DivModUnique(w - 256 * code, 0x1_0000_0000, -q, 0);
  }

  function Ids(children: seq<Child>): (ids: seq<Pid>)
    ensures |ids| == |children| && forall k :: 0 <= k < |ids| ==> ids[k] == children[k].id
  {
    seq(|children|, k requires 0 <= k < |children| => children[k].id)
  }

  class Process {
    var children: seq<Child>
    ghost var cloned: multiset<Pid>     // every child ever cloned
    ghost var reaped: multiset<Pid>     // every child reported by wait4

    /** A child is listed or reaped, never both and never twice. */
    ghost predicate Valid()
      reads this
    {
      && cloned == reaped + multiset(Ids(children))
      && forall id: Pid :: cloned[id] <= 1
    }

    constructor ()
      ensures Valid() && children == [] && cloned == multiset{} && reaped == multiset{}
    {
      children, cloned, reaped := [], multiset{}, multiset{};
    }

    /** Task ids are never used twice. */
    method Clone(id: Pid)
      requires Valid() && id !in cloned
      modifies this
      ensures Valid() && children == old(children) + [Child(id, Alive, 0)]
      ensures cloned == old(cloned) + multiset{id} && reaped == old(reaped)
    {
      children := children + [Child(id, Alive, 0)];
      assert Ids(children) == old(Ids(children)) + [id];
      cloned := cloned + multiset{id};
    }

    /** A child begins to exit, while its parent runs or waits for it. */
    method ChildMarks(i: nat, code: int)
      requires Valid() && i < |children| && children[i].life.Alive?
      modifies this`children
      ensures Valid() && children == old(children)[i := Child(old(children)[i].id, Marked, code)]
    {
      children := children[i := children[i].(life := Marked, code := code)];
      assert Ids(children) == old(Ids(children));
    }

    /** On another CPU the parent may run before this. */
    method ChildStores(i: nat)
      requires Valid() && i < |children| && children[i].life.Marked?
      modifies this`children
      ensures Valid() && children == old(children)[i := old(children)[i].(life := Stored)]
    {
      children := children[i := children[i].(life := Stored)];
      assert Ids(children) == old(Ids(children));
    }

    ghost predicate Matches(pid: int, c: Child) {
      pid <= 0 || c.id == pid
    }

    /** The child asked for has not exited. */
    static ghost predicate StillRuns(children: seq<Child>, pid: int) {
      pid > 0 && exists k :: 0 <= k < |children| && children[k].id == pid && children[k].life.Alive?
    }

    /** Takes child `i` off the list. */
    method Reap(i: nat)
      requires Valid() && i < |children|
      modifies this`children, this`reaped
      ensures Valid() && children == old(children)[..i] + old(children)[i + 1..]
      ensures reaped == old(reaped) + multiset{old(children)[i].id}
      ensures old(children)[i].id !in old(reaped)
      ensures forall k :: 0 <= k < |children| ==> children[k].id != old(children)[i].id
    {
      ghost var ids := Ids(children);
      ghost var id := children[i].id;
      assert ids == ids[..i] + [id] + ids[i + 1..];
      children := children[..i] + children[i + 1..];
      reaped := reaped + multiset{id};
      assert Ids(children) == ids[..i] + ids[i + 1..];
      assert multiset(ids) == multiset(ids[..i]) + multiset{id} + multiset(ids[i + 1..]);
      assert id !in multiset(Ids(children)) by {
        assert cloned[id] <= 1;
      }
      forall k | 0 <= k < |children|
        ensures children[k].id != id
      {
        assert Ids(children)[k] in multiset(Ids(children));
      }
    }

    /** The child at `i` is the one reported: the first that has exited, or the one asked for. */
    static ghost predicate ReapedAt(children: seq<Child>, pid: int, later: int, r: Answer, i: int) {
      && r.Reaped? && 0 <= i && i < |children| && r.id == children[i].id
      && (if pid <= 0
          then !children[i].life.Alive? && r.code == ExitCode(children[i])
               && forall k :: 0 <= k < i ==> children[k].life.Alive?
          else children[i].id == pid && r.code == if !children[i].life.Alive? then ExitCode(children[i]) else later)
    }

    /** No two children have the same id. */
    lemma OneEach(i: nat)
      requires Valid() && i < |children|
      ensures forall k :: 0 <= k < |children| && children[k].id == children[i].id ==> k == i
    {
      var ids := Ids(children);
      assert cloned[ids[i]] <= 1;
      assert ids == ids[..i] + [ids[i]] + ids[i + 1..];
      assert ids[i] !in multiset(ids[..i]) && ids[i] !in multiset(ids[i + 1..]);
      forall k | 0 <= k < |children| && k != i
        ensures children[k].id != children[i].id
      {
        assert ids[k] in if k < i then multiset(ids[..i]) else multiset(ids[i + 1..]);
      }
    }

    /** The scan of `wait_pid`: which child to reap, if any. */
    method Scan(pid: int) returns (status: WaitStatus, index: nat)
      requires Valid()
      ensures status == NotExist <==> forall k :: 0 <= k < |children| ==> !Matches(pid, children[k])
      ensures status == Running <==>
        pid <= 0 && children != [] && forall k :: 0 <= k < |children| ==> children[k].life.Alive?
      ensures status == Exited ==> index < |children|
      ensures status == Exited && pid <= 0 ==>
        !children[index].life.Alive? && forall k :: 0 <= k < index ==> children[k].life.Alive?
      ensures status == Exited && pid > 0 ==>
        children[index].id == pid && forall k :: 0 <= k < |children| && children[k].id == pid ==> k == index
    {
      status := NotExist;
      index := 0;
      while index < |children|
        invariant index <= |children|
        invariant pid > 0 ==> status == NotExist && forall k :: 0 <= k < index ==> children[k].id != pid
        invariant pid <= 0 ==> status == (if index == 0 then NotExist else Running)
        invariant pid <= 0 ==> forall k :: 0 <= k < index ==> children[k].life.Alive?
      {
        if pid <= 0 {
          status := Running;
          if !children[index].life.Alive? {
            assert Matches(pid, children[index]);
            return Exited, index;
          }
        } else if children[index].id == pid {
          assert Matches(pid, children[index]);
          OneEach(index);
          return Exited, index;
        }
        index := index + 1;
      }
      assert pid <= 0 && children != [] ==> Matches(pid, children[0]);
    }

    /**
     `later` is what `join` returns for a child that still runs, and `waited` says that `join` had
     to wait for it. The exit code of a child that is already marked is right just if it is
     stored by then, or is 0.
     */
    method WaitPid(pid: int, later: int) returns (r: Answer, waited: bool, ghost index: nat)
      requires Valid()
      modifies this`children, this`reaped
      ensures Valid()
      ensures r.Failed? ==> children == old(children) && reaped == old(reaped)
      ensures r == Failed(NotExist) <==> forall k :: 0 <= k < |old(children)| ==> !Matches(pid, old(children)[k])
      ensures r == Failed(Running) <==>
        pid <= 0 && old(children) != [] && forall k :: 0 <= k < |old(children)| ==> old(children)[k].life.Alive?
      ensures r != Failed(Exited)
      ensures r.Reaped? ==> ReapedAt(old(children), pid, later, r, index)
      ensures r.Reaped? && !old(children)[index].life.Alive? ==>
        (r.code == old(children)[index].code <==> old(children)[index].life.Stored? || old(children)[index].code == 0)
      ensures r.Reaped? ==> children == old(children)[..index] + old(children)[index + 1..]
      ensures r.Reaped? ==> reaped == old(reaped) + multiset{r.id} && r.id !in old(reaped)
      ensures r.Reaped? ==> forall k :: 0 <= k < |children| ==> children[k].id != r.id
      ensures waited <==> StillRuns(old(children), pid)
    {
      waited := false;
      var status, i := Scan(pid);
      index := i;
      if status == Exited {
        var child := children[i];
        waited := child.life.Alive?;
        r := Reaped(child.id, if !child.life.Alive? then ExitCode(child) else later);
        Reap(i);
      } else {
        r := Failed(status);
      }
    }

    /**
     One turn of the loop of `wait4`; the status word has the exit code in its second byte. It
     waits for a child that is asked for by its id and still runs, with `WNOHANG` as well.
     */
    method Wait4Turn(pid: int, noHang: bool, later: int) returns (t: Turn, waited: bool, ghost index: nat)
      requires Valid()
      modifies this`children, this`reaped
      ensures Valid()
      ensures t.NoChild? <==> forall k :: 0 <= k < |old(children)| ==> !Matches(pid, old(children)[k])
      ensures t == Return(0, None) || t.Again? ==>
        && children == old(children) && pid <= 0 && children != []
        && forall k :: 0 <= k < |children| ==> children[k].life.Alive?
      ensures t == Return(0, None) ==> noHang
      ensures t.Again? ==> !noHang
      ensures waited <==> StillRuns(old(children), pid)
      ensures t.Return? && t.code.Some? ==>
        && t.pid in old(Ids(children)) && t.pid !in Ids(children)
        && reaped == old(reaped) + multiset{t.pid}
        && index < |old(children)| && var child := old(children)[index];
        var code := if !child.life.Alive? then ExitCode(child) else later;
        ReapedAt(old(children), pid, later, Reaped(t.pid, code), index) && IsStatus(t.code.value, code)
    {
      var answer;
      answer, waited, index := WaitPid(pid, later);
      match answer
      case Reaped(id, code) =>
        forall k | 0 <= k < |children|
          ensures Ids(children)[k] != id
        {
        }
        var word := StatusWord(code);
        t := Return(id, Some(word));
      case Failed(NotExist) => t := NoChild;
      case Failed(Running) => t := if noHang then Return(0, None) else Again;
    }
  }
}
