/**
 The pipe: a ring buffer of 256 bytes, and the loops of `read` and `write`, one turn at a
 time (a turn holds the lock of the buffer; between turns anybody else may have one).
 */
module Pipe {
  import opened Common

  const SIZE: nat := 256

  datatype Status = Full | Empty | Normal

  /** `n` bytes of the ring from position `head` on. */
  function Window(ring: seq<Byte>, head: nat, n: nat): seq<Byte>
    requires |ring| == SIZE
  {
    seq(n, i requires 0 <= i < n => ring[(head + i) % SIZE])
  }

  lemma WindowPush(ring: seq<Byte>, head: nat, n: nat, b: Byte)
    requires |ring| == SIZE && n < SIZE
    ensures Window(ring[(head + n) % SIZE := b], head, n + 1) == Window(ring, head, n) + [b]
  {
    var ring' := ring[(head + n) % SIZE := b];
    forall i | 0 <= i < n
      ensures Window(ring', head, n + 1)[i] == Window(ring, head, n)[i]
    {
      assert (head + i) % SIZE != (head + n) % SIZE;
    }
  }

  lemma WindowPop(ring: seq<Byte>, head: nat, n: nat)
    requires |ring| == SIZE && head < SIZE && n > 0
    ensures [ring[head]] + Window(ring, (head + 1) % SIZE, n - 1) == Window(ring, head, n)
  {
  }

  class RingBuffer {
    const arr: array<Byte>
    var head: nat
    var tail: nat
    var status: Status

    ghost function Count(): nat
      requires Valid()
      reads this
    {
      if status.Empty? then 0 else if tail > head then tail - head else tail + SIZE - head
    }

    ghost predicate Valid()
      reads this
    {
      && arr.Length == SIZE && head < SIZE && tail < SIZE
      && (head == tail <==> !status.Normal?)
    }

    /** The bytes in the buffer, the oldest first. */
    ghost function Contents(): (c: seq<Byte>)
      requires Valid()
      reads this, arr
    {
      Window(arr[..], head, Count())
    }

    constructor ()
      ensures Valid() && fresh(arr) && Contents() == []
    {
      arr := new Byte[SIZE](_ => 0);
      head, tail, status := 0, 0, Empty;
    }

    /** A byte is appended; in a full ring it replaces everything. */
    method WriteByte(b: Byte)
      requires Valid()
      modifies this, arr
      ensures Valid()
      ensures Contents() == if old(Count()) < SIZE then old(Contents()) + [b] else [b]
    {
      ghost var n, before := Count(), arr[..];
      assert (head + n) % SIZE == tail;
      if n < SIZE {
        WindowPush(before, head, n, b);
      }
      status := Normal;
      arr[tail] := b;
      assert arr[..] == before[tail := b];
      tail := (tail + 1) % SIZE;
      if tail == head {
        status := Full;
      }
      assert Count() == if n < SIZE then n + 1 else 1;
    }

    /** The oldest byte is removed; an empty ring hands out an old one and then seems to hold 255 more. */
    method ReadByte() returns (b: Byte)
      requires Valid()
      modifies this
      ensures Valid() && b == old(arr[head])
      ensures if old(Count()) > 0 then [b] + Contents() == old(Contents()) else |Contents()| == SIZE - 1
    {
      if Count() > 0 {
        WindowPop(arr[..], head, Count());
      }
      status := Normal;
      b := arr[head];
      head := (head + 1) % SIZE;
      if head == tail {
        status := Empty;
      }
    }

    method AvailableRead() returns (n: nat)
      requires Valid()
      ensures n == |Contents()| == Count() <= SIZE
    {
      if status.Empty? {
        return 0;
      }
      return if tail > head then tail - head else tail + SIZE - head;
    }

    method AvailableWrite() returns (n: nat)
      requires Valid()
      ensures n == SIZE - |Contents()|
    {
      if status.Full? {
        return 0;
      }
      var m := AvailableRead();
      return SIZE - m;
    }
  }

  // ---------------------------------------------------------------- one turn

  /** A call in progress or finished: what it wants and what it has done. */
  datatype Caller =
    | Reader(want: nat, got: seq<Byte>, done: bool)
    | Writer(data: seq<Byte>, sent: nat, done: bool)

  function Min(a: nat, b: nat): nat { if a < b then a else b }

  /** How many bytes a caller moves in its next turn. */
  function Moved(contents: seq<Byte>, c: Caller): nat
    requires |contents| <= SIZE && Sound(c)
  {
    match c
    case Reader(want, got, _) => Min(|contents|, want - |got|)
    case Writer(data, sent, _) => Min(SIZE - |contents|, |data| - sent)
  }

  predicate Sound(c: Caller) {
    match c
    case Reader(want, got, _) => |got| <= want
    case Writer(data, sent, _) => sent <= |data|
  }

  /** The caller after a turn: it returns when it meets more bytes or room than it still wants, or the end. */
  function Served(contents: seq<Byte>, closed: bool, c: Caller): Caller
    requires |contents| <= SIZE && Sound(c)
  {
    var n := Moved(contents, c);
    match c
    case Reader(want, got, _) =>
      Reader(want, got + contents[..n], |contents| > want - |got| || (contents == [] && closed))
    case Writer(data, sent, _) => Writer(data, sent + n, SIZE - |contents| > |data| - sent)
  }

  /** The bytes in the pipe after a turn. */
  function Left(contents: seq<Byte>, c: Caller): seq<Byte>
    requires |contents| <= SIZE && Sound(c)
  {
    var n := Moved(contents, c);
    match c
    case Reader(_, _, _) => contents[n..]
    case Writer(data, sent, _) => contents + data[sent..sent + n]
  }

  method MoveByte(ring: RingBuffer, buf: array<Byte>, k: nat)
    requires ring.Valid() && buf != ring.arr && k < buf.Length && ring.Contents() != []
    modifies ring, buf
    ensures ring.Valid()
    ensures ring.Contents() == old(ring.Contents())[1..]
    ensures buf[..k + 1] == old(buf[..k]) + [old(ring.Contents())[0]]
  {
    ghost var all, got := ring.Contents(), buf[..k];
    var b := ring.ReadByte();
    buf[k] := b;
    assert ([b] + ring.Contents())[0] == b && ([b] + ring.Contents())[1..] == ring.Contents();
    assert buf[..k] == got;
  }

  lemma TakeFirst(all: seq<Byte>, got: seq<Byte>, i: nat)
    requires i < |all|
    ensures all[i..][0] == all[i] && all[i..][1..] == all[i + 1..]
    ensures got + all[..i] + [all[i]] == got + all[..i + 1]
  {
  }

  /** Where the loop of `read` stops, it has done its turn. */
  lemma ReadResult(all: seq<Byte>, closed: bool, want: nat, got: seq<Byte>, i: nat)
    requires all != [] && |all| <= SIZE && |got| + i <= want && i <= |all| && (i == |all| || |got| + i == want)
    ensures Left(all, Reader(want, got, false)) == all[i..]
    ensures Served(all, closed, Reader(want, got, false)) == Reader(want, got + all[..i], i < |all|)
  {
  }

  /** One turn of `read`. */
  method ReadTurn(ring: RingBuffer, closed: bool, buf: array<Byte>, readSize0: nat) returns (done: bool, readSize: nat)
    requires ring.Valid() && buf != ring.arr && readSize0 <= buf.Length
    modifies ring, buf
    ensures ring.Valid() && readSize0 <= readSize <= buf.Length && |old(ring.Contents())| <= SIZE
    ensures var before := old(Reader(buf.Length, buf[..readSize0], false));
      && ring.Contents() == Left(old(ring.Contents()), before)
      && Reader(buf.Length, buf[..readSize], done) == Served(old(ring.Contents()), closed, before)
  {
    readSize := readSize0;
    var loopRead := ring.AvailableRead();
    if loopRead == 0 {
      return closed, readSize;
    }
    ghost var all := ring.Contents();
    ghost var got := buf[..readSize0];
    var i := 0;
    while i < loopRead
      invariant 0 <= i <= loopRead && readSize == readSize0 + i <= buf.Length && ring.Valid()
      invariant ring.Contents() == all[i..]
      invariant buf[..readSize] == got + all[..i]
    {
      if readSize == buf.Length {
        ReadResult(all, closed, buf.Length, got, i);
        return true, readSize;
      }
      TakeFirst(all, got, i);
      MoveByte(ring, buf, readSize);
      readSize, i := readSize + 1, i + 1;
    }
    ReadResult(all, closed, buf.Length, got, i);
    done := false;
  }

  /** One turn of `write`. */
  method WriteTurn(ring: RingBuffer, buf: array<Byte>, writeSize0: nat) returns (done: bool, writeSize: nat)
    requires ring.Valid() && buf != ring.arr && writeSize0 <= buf.Length
    modifies ring, ring.arr
    ensures ring.Valid() && writeSize0 <= writeSize <= buf.Length && |old(ring.Contents())| <= SIZE
    ensures var before := Writer(buf[..], writeSize0, false);
      && ring.Contents() == Left(old(ring.Contents()), before)
      && Writer(buf[..], writeSize, done) == Served(old(ring.Contents()), false, before)
  {
    writeSize := writeSize0;
    var loopWrite := ring.AvailableWrite();
    if loopWrite == 0 {
      return false, writeSize;
    }
    var i := 0;
    while i < loopWrite
      invariant 0 <= i <= loopWrite && writeSize == writeSize0 + i <= buf.Length && ring.Valid()
      invariant |ring.Contents()| == SIZE - loopWrite + i
      invariant ring.Contents() == old(ring.Contents()) + buf[writeSize0..writeSize]
    {
      if writeSize == buf.Length {
        return true, writeSize;
      }
      ring.WriteByte(buf[writeSize]);
      writeSize, i := writeSize + 1, i + 1;
    }
    done := false;
  }

  // ---------------------------------------------------------------- runs of many callers

  /** The bytes one call moved in one turn. */
  datatype Entry = Entry(id: nat, bytes: seq<Byte>)

  /** A pipe, all calls on it so far, and what was read and written, in the order of the turns. */
  datatype Shared = Shared(
    contents: seq<Byte>, closed: bool, calls: map<nat, Caller>, taken: seq<Entry>, added: seq<Entry>)

  datatype Action = StartRead(id: nat, want: nat) | StartWrite(id: nat, data: seq<Byte>) | Turn(id: nat) | Close

  const FRESH: Shared := Shared([], false, map[], [], [])

  predicate Bounded(s: Shared) {
    |s.contents| <= SIZE && forall id :: id in s.calls ==> Sound(s.calls[id])
  }

  /** No call of `write` is in progress. */
  predicate NoWriter(s: Shared) {
    forall id :: id in s.calls && s.calls[id].Writer? ==> s.calls[id].done
  }

  /** A turn of the call `id`. */
  function AfterTurn(s: Shared, id: nat): (t: Shared)
    requires Bounded(s) && id in s.calls
    ensures Bounded(t)
  {
    var c := s.calls[id];
    var n := Moved(s.contents, c);
    var after := s.calls[id := Served(s.contents, s.closed, c)];
    match c
    case Reader(_, _, _) =>
      Shared(Left(s.contents, c), s.closed, after, s.taken + [Entry(id, s.contents[..n])], s.added)
    case Writer(data, sent, _) =>
      Shared(Left(s.contents, c), s.closed, after, s.taken, s.added + [Entry(id, data[sent..sent + n])])
  }

  /** One action; the write end is closed only when nobody uses it. */
  function Step(s: Shared, a: Action): (r: Option<Shared>)
    requires Bounded(s)
    ensures r.Some? ==> Bounded(r.value)
  {
    match a
    case StartRead(id, want) =>
      if id in s.calls then None else Some(s.(calls := s.calls[id := Reader(want, [], false)]))
    case StartWrite(id, data) =>
      if id in s.calls || s.closed then None else Some(s.(calls := s.calls[id := Writer(data, 0, false)]))
    case Turn(id) => if id !in s.calls || s.calls[id].done then None else Some(AfterTurn(s, id))
    case Close => if NoWriter(s) then Some(s.(closed := true)) else None
  }

  function Exec(s: Shared, actions: seq<Action>): (r: Option<Shared>)
    requires Bounded(s)
    ensures r.Some? ==> Bounded(r.value)
    decreases |actions|
  {
    if actions == [] then Some(s)
    else
      var n := Step(s, actions[0]);
      if n.None? then None else Exec(n.value, actions[1..])
  }

  /** All bytes of a log, and those of one call. */
  function Bytes(log: seq<Entry>): seq<Byte> {
    if log == [] then [] else Bytes(log[..|log| - 1]) + log[|log| - 1].bytes
  }

  function Share(log: seq<Entry>, id: nat): seq<Byte> {
    if log == [] then []
    else Share(log[..|log| - 1], id) + if log[|log| - 1].id == id then log[|log| - 1].bytes else []
  }

  lemma Logged(log: seq<Entry>, e: Entry, id: nat)
    ensures Bytes(log + [e]) == Bytes(log) + e.bytes
    ensures Share(log + [e], id) == Share(log, id) + if e.id == id then e.bytes else []
  {
    assert (log + [e])[..|log|] == log;
  }

  /** What a call has moved is what the log says, and how a call can end. */
  predicate CallOk(s: Shared, id: nat)
    requires id in s.calls && Sound(s.calls[id])
  {
    match s.calls[id]
    case Reader(want, got, done) =>
      && got == Share(s.taken, id) && Share(s.added, id) == []
      && (done ==> |got| == want || (s.closed && s.contents == []))
    case Writer(data, sent, done) =>
      && data[..sent] == Share(s.added, id) && Share(s.taken, id) == []
      && (done ==> sent == |data|)
  }

  ghost predicate Inv(s: Shared) {
    && Bounded(s)
    && Bytes(s.taken) + s.contents == Bytes(s.added)
    && (s.closed ==> NoWriter(s))
    && (forall id :: id in s.calls ==> CallOk(s, id))
    && (forall id: nat :: id !in s.calls ==> Share(s.taken, id) == [] && Share(s.added, id) == [])
  }

  lemma SplitLater(a: seq<Byte>, b: seq<Byte>, n: nat)
    requires n <= |b|
    ensures a + b[..n] + b[n..] == a + b
  {
  }

  lemma {:induction false} TurnKeepsBytes(s: Shared, id: nat)
    requires Inv(s) && id in s.calls && !s.calls[id].done
    ensures var t := AfterTurn(s, id); Bytes(t.taken) + t.contents == Bytes(t.added)
  {
    var c := s.calls[id];
    var n := Moved(s.contents, c);
    match c
    case Reader(_, _, _) =>
      Logged(s.taken, Entry(id, s.contents[..n]), id);
      SplitLater(Bytes(s.taken), s.contents, n);
    case Writer(data, sent, _) =>
      Logged(s.added, Entry(id, data[sent..sent + n]), id);
      assert Bytes(s.taken) + (s.contents + data[sent..sent + n]) == Bytes(s.taken) + s.contents + data[sent..sent + n];
  }

  lemma {:induction false} ReaderKeepsOwn(s: Shared, id: nat)
    requires Bounded(s) && id in s.calls && CallOk(s, id) && !s.calls[id].done && s.calls[id].Reader?
    ensures CallOk(AfterTurn(s, id), id)
  {
    Logged(s.taken, Entry(id, s.contents[..Moved(s.contents, s.calls[id])]), id);
  }

  lemma PrefixGrows(data: seq<Byte>, sent: nat, n: nat, share: seq<Byte>)
    requires sent + n <= |data| && data[..sent] == share
    ensures data[..sent + n] == share + data[sent..sent + n]
  {
  }

  lemma {:induction false} WriterKeepsOwn(s: Shared, id: nat)
    requires Bounded(s) && id in s.calls && CallOk(s, id) && !s.calls[id].done && s.calls[id].Writer?
    ensures CallOk(AfterTurn(s, id), id)
  {
    var c, t := s.calls[id], AfterTurn(s, id);
    var n := Moved(s.contents, c);
    var bytes := c.data[c.sent..c.sent + n];
    Logged(s.added, Entry(id, bytes), id);
    PrefixGrows(c.data, c.sent, n, Share(s.added, id));
    assert t.added == s.added + [Entry(id, bytes)] && t.taken == s.taken;
    assert t.calls[id] == Writer(c.data, c.sent + n, SIZE - |s.contents| > |c.data| - c.sent);
  }

  lemma {:induction false} TurnKeepsOther(s: Shared, id: nat, other: nat)
    requires Inv(s) && id in s.calls && !s.calls[id].done && other in s.calls && other != id
    ensures CallOk(AfterTurn(s, id), other)
  {
    assert CallOk(s, other);
    var c := s.calls[id];
    var n := Moved(s.contents, c);
    match c
    case Reader(_, _, _) => Logged(s.taken, Entry(id, s.contents[..n]), other);
    case Writer(data, sent, _) => Logged(s.added, Entry(id, data[sent..sent + n]), other);
  }

  lemma {:induction false} TurnKeepsAbsent(s: Shared, id: nat, other: nat)
    requires Inv(s) && id in s.calls && other !in s.calls
    ensures var t := AfterTurn(s, id); Share(t.taken, other) == [] && Share(t.added, other) == []
  {
    var n := Moved(s.contents, s.calls[id]);
    match s.calls[id]
    case Reader(_, _, _) => Logged(s.taken, Entry(id, s.contents[..n]), other);
    case Writer(data, sent, _) => Logged(s.added, Entry(id, data[sent..sent + n]), other);
  }

  lemma {:induction false} TurnKeepsCall(s: Shared, id: nat, other: nat)
    requires Inv(s) && id in s.calls && !s.calls[id].done && other in s.calls
    ensures CallOk(AfterTurn(s, id), other)
  {
    assert CallOk(s, id);
    if other != id {
      TurnKeepsOther(s, id, other);
    } else if s.calls[id].Reader? {
      ReaderKeepsOwn(s, id);
    } else {
      WriterKeepsOwn(s, id);
    }
  }

  /** The calls are the same, and a closed pipe has no writer. */
  lemma {:induction false} TurnKeepsClosed(s: Shared, id: nat)
    requires Inv(s) && id in s.calls && !s.calls[id].done
    ensures AfterTurn(s, id).calls.Keys == s.calls.Keys
    ensures AfterTurn(s, id).closed ==> NoWriter(AfterTurn(s, id))
  {
  }

  lemma {:induction false} TurnKeeps(s: Shared, id: nat)
    requires Inv(s) && id in s.calls && !s.calls[id].done
    ensures Inv(AfterTurn(s, id))
  {
    var t := AfterTurn(s, id);
    TurnKeepsClosed(s, id);
    TurnKeepsBytes(s, id);
    assert forall other :: other in t.calls ==> CallOk(t, other) by {
      forall other | other in t.calls
        ensures CallOk(t, other)
      {
        TurnKeepsCall(s, id, other);
      }
    }
    forall other: nat | other !in t.calls
      ensures Share(t.taken, other) == [] && Share(t.added, other) == []
    {
      TurnKeepsAbsent(s, id, other);
    }
  }

  lemma {:induction false} StepKeeps(s: Shared, a: Action)
    requires Inv(s) && Step(s, a).Some?
    ensures Inv(Step(s, a).value)
  {
    var t := Step(s, a).value;
    if a.Turn? {
      TurnKeeps(s, a.id);
    } else {
      assert forall id :: id in s.calls ==> CallOk(s, id) && t.calls[id] == s.calls[id];
    }
  }

  lemma {:induction false} RunKeeps(s: Shared, actions: seq<Action>)
    requires Inv(s) && Exec(s, actions).Some?
    ensures Inv(Exec(s, actions).value)
    decreases |actions|
  {
    if actions != [] {
      StepKeeps(s, actions[0]);
      RunKeeps(Step(s, actions[0]).value, actions[1..]);
    }
  }

  /**
   Every run of any number of readers and writers: the bytes read, in the order of the turns,
   and those still in the pipe are the bytes written, in the order of the turns; each call has
   exactly its own; a `write` ends complete; a `read` ends complete or at the end of all bytes.
   */
  lemma EveryRun(actions: seq<Action>)
    requires Exec(FRESH, actions).Some?
    ensures var s := Exec(FRESH, actions).value;
      && Bytes(s.taken) + s.contents == Bytes(s.added) && |s.contents| <= SIZE
      && (forall id :: id in s.calls && s.calls[id].Reader? ==> s.calls[id].got == Share(s.taken, id))
      && (forall id :: id in s.calls && s.calls[id].Writer? ==>
            s.calls[id].sent <= |s.calls[id].data| && s.calls[id].data[..s.calls[id].sent] == Share(s.added, id))
      && (forall id :: id in s.calls && s.calls[id].Writer? && s.calls[id].done ==>
            s.calls[id].sent == |s.calls[id].data|)
      && (forall id :: id in s.calls && s.calls[id].Reader? && s.calls[id].done ==>
            |s.calls[id].got| == s.calls[id].want || (s.closed && Bytes(s.taken) == Bytes(s.added)))
  {
    RunKeeps(FRESH, actions);
    var s := Exec(FRESH, actions).value;
    assert forall id :: id in s.calls ==> CallOk(s, id);
    assert Bytes(s.taken) + [] == Bytes(s.taken);
  }

  // ---------------------------------------------------------------- a request met exactly

  /** The call has all it wants and has not returned; the pipe is empty and open. */
  predicate Met(s: Shared, id: nat) {
    && id in s.calls && s.calls[id].Reader? && !s.calls[id].done && |s.calls[id].got| == s.calls[id].want
    && s.contents == [] && !s.closed
  }

  lemma StepGrows(s: Shared, a: Action)
    requires Bounded(s) && Step(s, a).Some?
    ensures var t := Step(s, a).value;
      Bytes(s.added) <= Bytes(t.added) && Bytes(s.taken) <= Bytes(t.taken) && (s.closed ==> t.closed)
  {
    if a.Turn? {
      var c := s.calls[a.id];
      var n := Moved(s.contents, c);
      match c
      case Reader(_, _, _) => Logged(s.taken, Entry(a.id, s.contents[..n]), a.id);
      case Writer(data, sent, _) => Logged(s.added, Entry(a.id, data[sent..sent + n]), a.id);
    }
  }

  lemma {:induction false} RunGrows(s: Shared, actions: seq<Action>)
    requires Bounded(s) && Exec(s, actions).Some?
    ensures var t := Exec(s, actions).value;
      Bytes(s.added) <= Bytes(t.added) && Bytes(s.taken) <= Bytes(t.taken) && (s.closed ==> t.closed)
    decreases |actions|
  {
    if actions != [] {
      StepGrows(s, actions[0]);
      RunGrows(Step(s, actions[0]).value, actions[1..]);
    }
  }

  /** A writer that finds the pipe empty adds its bytes, if it has any. */
  lemma {:induction false} WriterAdds(s: Shared, id: nat)
    requires Inv(s) && s.contents == [] && id in s.calls && s.calls[id].Writer? && !s.calls[id].done
    ensures var t := AfterTurn(s, id);
      Bytes(t.added) != Bytes(s.added) || t.contents == []
  {
    var c := s.calls[id];
    var n := Moved(s.contents, c);
    Logged(s.added, Entry(id, c.data[c.sent..c.sent + n]), id);
    assert n > 0 ==> |Bytes(AfterTurn(s, id).added)| > |Bytes(s.added)|;
  }

  lemma {:induction false} MetStep(s: Shared, a: Action, id: nat)
    requires Inv(s) && Met(s, id) && Step(s, a).Some?
    ensures var t := Step(s, a).value;
      t.closed || Bytes(t.added) != Bytes(s.added) || (Met(t, id) && t.calls[id] == s.calls[id])
  {
    if a.Turn? && s.calls[a.id].Writer? {
      WriterAdds(s, a.id);
    }
  }

  /**
   A `read` that has got all it asked for does not return as long as nobody writes a byte and
   the write end is open, whatever else happens and however many turns it takes.
   */
  lemma {:induction false} MetRequestWaits(s: Shared, actions: seq<Action>, id: nat)
    requires Inv(s) && Met(s, id) && Exec(s, actions).Some?
    ensures var t := Exec(s, actions).value;
      t.closed || Bytes(t.added) != Bytes(s.added) || (Met(t, id) && t.calls[id] == s.calls[id])
    decreases |actions|
  {
    if actions != [] {
      var m := Step(s, actions[0]).value;
      MetStep(s, actions[0], id);
      StepGrows(s, actions[0]);
      StepKeeps(s, actions[0]);
      RunGrows(m, actions[1..]);
      if !m.closed && Bytes(m.added) == Bytes(s.added) {
        MetRequestWaits(m, actions[1..], id);
      }
    }
  }

  /** The call has written all its bytes and has not returned; the pipe is full. */
  predicate Filled(s: Shared, id: nat) {
    && id in s.calls && s.calls[id].Writer? && !s.calls[id].done && s.calls[id].sent == |s.calls[id].data|
    && |s.contents| == SIZE
  }

  lemma {:induction false} FilledStep(s: Shared, a: Action, id: nat)
    requires Inv(s) && Filled(s, id) && Step(s, a).Some?
    ensures var t := Step(s, a).value;
      Bytes(t.taken) != Bytes(s.taken) || (Filled(t, id) && t.calls[id] == s.calls[id])
  {
    if a.Turn? && s.calls[a.id].Reader? {
      var n := Moved(s.contents, s.calls[a.id]);
      Logged(s.taken, Entry(a.id, s.contents[..n]), a.id);
      assert n > 0 ==> |Bytes(AfterTurn(s, a.id).taken)| > |Bytes(s.taken)|;
    }
  }

  /** A `write` that has filled the pipe exactly does not return as long as nobody reads a byte. */
  lemma {:induction false} FilledPipeWaits(s: Shared, actions: seq<Action>, id: nat)
    requires Inv(s) && Filled(s, id) && Exec(s, actions).Some?
    ensures var t := Exec(s, actions).value;
      Bytes(t.taken) != Bytes(s.taken) || (Filled(t, id) && t.calls[id] == s.calls[id])
    decreases |actions|
  {
    if actions != [] {
      var m := Step(s, actions[0]).value;
      FilledStep(s, actions[0], id);
      StepGrows(s, actions[0]);
      StepKeeps(s, actions[0]);
      RunGrows(m, actions[1..]);
      if Bytes(m.taken) == Bytes(s.taken) {
        FilledPipeWaits(m, actions[1..], id);
      }
    }
  }

  /** The call has got or written all its bytes. */
  predicate Complete(s: Shared, id: nat) {
    && id in s.calls
    && match s.calls[id]
       case Reader(want, got, _) => |got| == want
       case Writer(data, sent, _) => sent == |data|
  }

  lemma {:induction false} StaysComplete(s: Shared, actions: seq<Action>, id: nat)
    requires Bounded(s) && Complete(s, id) && Exec(s, actions).Some?
    ensures Complete(Exec(s, actions).value, id)
    ensures Exec(s, actions).value.calls[id].Reader? == s.calls[id].Reader?
    decreases |actions|
  {
    if actions != [] {
      StaysComplete(Step(s, actions[0]).value, actions[1..], id);
    }
  }

  /**
   A call with all its bytes that has not returned after a run returns in its next turn if and
   only if it then finds a byte or the closed end, or for a `write` some room.
   */
  lemma CompleteReturnsIff(s: Shared, actions: seq<Action>, id: nat)
    requires Bounded(s) && Complete(s, id) && Exec(s, actions).Some?
    ensures var t := Exec(s, actions).value;
      id in t.calls && (!t.calls[id].done ==>
        (AfterTurn(t, id).calls[id].done <==>
         if s.calls[id].Reader? then t.contents != [] || t.closed else |t.contents| < SIZE))
  {
    StaysComplete(s, actions, id);
  }

  /** Once nobody writes the write end can be closed, and a `read` that finds the pipe empty returns. */
  lemma CloseEndsReads(s: Shared, id: nat)
    requires Inv(s) && NoWriter(s) && id in s.calls && s.calls[id].Reader? && !s.calls[id].done && s.contents == []
    ensures Step(s, Close).Some?
    ensures var t := Step(s, Close).value;
      && t.closed && t.contents == s.contents && t.calls == s.calls
      && AfterTurn(t, id).calls[id] == Reader(s.calls[id].want, s.calls[id].got, true)
  {
    var c := s.calls[id];
    assert c.got + s.contents[..0] == c.got;
  }

  lemma ExecFirst(s: Shared, a: Action, rest: seq<Action>)
    requires Bounded(s) && Step(s, a).Some?
    ensures Exec(s, [a] + rest) == Exec(Step(s, a).value, rest)
  {
    assert ([a] + rest)[1..] == rest;
  }

  /** One byte is written, and a call that wants one byte gets it: the request is met and goes on waiting. */
  lemma OneByteForOne(b: Byte)
    ensures var r := Exec(FRESH, [StartWrite(0, [b])] + ([Turn(0)] + ([StartRead(1, 1)] + ([Turn(1)] + []))));
      r.Some? && Met(r.value, 1) && r.value.calls[1].got == [b]
  {
    var s1 := Step(FRESH, StartWrite(0, [b])).value;
    var s2 := AfterTurn(s1, 0);
    var s3 := Step(s2, StartRead(1, 1)).value;
    var s4 := AfterTurn(s3, 1);
    assert s1.calls[0] == Writer([b], 0, false) && [] + [b][0..1] == [b];
    assert s2.contents == [b] && s3.contents == [b] && s3.calls[1] == Reader(1, [], false);
    assert s4.contents == [b][1..] == [] && s4.calls[1] == Reader(1, [] + [b][..1], false);
    ExecFirst(s3, Turn(1), []);
    ExecFirst(s2, StartRead(1, 1), [Turn(1)] + []);
    ExecFirst(s1, Turn(0), [StartRead(1, 1)] + ([Turn(1)] + []));
    ExecFirst(FRESH, StartWrite(0, [b]), [Turn(0)] + ([StartRead(1, 1)] + ([Turn(1)] + [])));
  }
}
