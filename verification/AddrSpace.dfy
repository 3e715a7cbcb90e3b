/**
 Copying into, out of and between address spaces page by page, and cloning an address space.
 */
module AddrSpace {
  import opened Common

  const PAGE: nat := 4096

  datatype Error = InvalidInput | BadAddress

  datatype Result = Ok | Err(error: Error)

  /** The address range and the page table: page numbers to frame numbers. */
  datatype Space = Space(base: nat, end: nat, pt: map<nat, nat>)

  /** One call of the copy function: `size` bytes at `paddr` are those from `offset` on. */
  datatype Chunk = Chunk(paddr: nat, offset: nat, size: nat)

  function Translate(pt: map<nat, nat>, va: nat): nat
    requires va / PAGE in pt
  {
    pt[va / PAGE] * PAGE + va % PAGE
  }

  /** The range overlaps page `p`; an empty range inside a page counts as on that page. */
  predicate Touches(start: nat, size: nat, p: nat) {
    start / PAGE <= p < (start + size + PAGE - 1) / PAGE
  }

  ghost predicate Mapped(pt: map<nat, nat>, start: nat, size: nat) {
    forall p: nat :: Touches(start, size, p) ==> p in pt
  }

  predicate InRange(a: Space, start: nat, size: nat) {
    a.base <= start && start + size <= a.end
  }

  /** A chunk stays on one page and holds the bytes of consecutive addresses. */
  ghost predicate ChunkOk(pt: map<nat, nat>, start: nat, c: Chunk) {
    && c.size > 0
    && forall va: nat :: start + c.offset <= va < start + c.offset + c.size ==>
         va / PAGE in pt && Translate(pt, va) == c.paddr + (va - start - c.offset)
  }

  /** The chunks lie side by side and end at `n`. */
  ghost predicate Tile(chunks: seq<Chunk>, n: nat) {
    if chunks == [] then n == 0
    else
      var last := chunks[|chunks| - 1];
      last.offset + last.size == n && Tile(chunks[..|chunks| - 1], last.offset)
  }

  method ProcessArea(a: Space, start: nat, size: nat) returns (r: Result, chunks: seq<Chunk>)
    ensures r == if !InRange(a, start, size) then Err(InvalidInput)
                 else if !Mapped(a.pt, start, size) then Err(BadAddress) else Ok
    ensures forall c :: c in chunks ==> ChunkOk(a.pt, start, c) && c.offset + c.size <= size
    ensures r.Ok? ==> Tile(chunks, size)
  {
    chunks := [];
    if !InRange(a, start, size) {
      return Err(InvalidInput), chunks;
    }
    var cnt, p := 0, start / PAGE;
    var endPage := (start + size + PAGE - 1) / PAGE;
    while p < endPage
      invariant start / PAGE <= p && (p <= endPage || endPage <= start / PAGE)
      invariant forall q: nat :: start / PAGE <= q < p ==> q in a.pt
      invariant cnt == if p == start / PAGE then 0 else if p * PAGE - start < size then p * PAGE - start else size
      invariant forall c :: c in chunks ==> ChunkOk(a.pt, start, c) && c.offset + c.size <= size
      invariant Tile(chunks, cnt)
    {
      if p !in a.pt {
        assert Touches(start, size, p);
        return Err(BadAddress), chunks;
      }
      var paddr := a.pt[p] * PAGE;
      var copySize := if size - cnt < PAGE then size - cnt else PAGE;
      if copySize == 0 {
        break;
      }
      if p == start / PAGE && start % PAGE != 0 {
        var alignOffset := start % PAGE;
        copySize := if copySize < PAGE - alignOffset then copySize else PAGE - alignOffset;
        paddr := paddr + alignOffset;
      }
      var c := Chunk(paddr, cnt, copySize);
      assert ChunkOk(a.pt, start, c);
      chunks := chunks + [c];
      cnt, p := cnt + copySize, p + 1;
    }
    r := Ok;
  }

  // ---------------------------------------------------------------- read and write

  /** All frames of the page table are in physical memory. */
  ghost predicate Backed(pt: map<nat, nat>, memory: int) {
    forall p :: p in pt ==> (pt[p] + 1) * PAGE <= memory
  }

  lemma BackedAddress(pt: map<nat, nat>, memory: int, va: nat)
    requires Backed(pt, memory) && va / PAGE in pt
    ensures Translate(pt, va) < memory
  {
  }

  /** No two pages share a frame. */
  ghost predicate Injective(pt: map<nat, nat>) {
    forall p, q :: p in pt && q in pt && pt[p] == pt[q] ==> p == q
  }

  lemma TranslateInjective(pt: map<nat, nat>, va: nat, vb: nat)
    requires Injective(pt) && va / PAGE in pt && vb / PAGE in pt && Translate(pt, va) == Translate(pt, vb)
    ensures va == vb
  {
  }

  lemma ChunkInMemory(pt: map<nat, nat>, start: nat, c: Chunk, memory: int)
    requires ChunkOk(pt, start, c) && Backed(pt, memory)
    ensures c.paddr + c.size <= memory
  {
    var last := start + c.offset + c.size - 1;
    assert Translate(pt, last) == c.paddr + c.size - 1;
    BackedAddress(pt, memory, last);
  }

  /** `copy_nonoverlapping` */
  method Copy(from: array<Byte>, i: nat, to: array<Byte>, j: nat, n: nat)
    requires from != to && i + n <= from.Length && j + n <= to.Length
    modifies to
    ensures to[..] == old(to[..j]) + from[i..i + n] + old(to[j + n..])
  {
    forall k | 0 <= k < n {
      to[j + k] := from[i + k];
    }
  }

  /** The bytes of the address space are in `buf`, up to `n`. */
  ghost predicate Holds(pt: map<nat, nat>, start: nat, mem: seq<Byte>, buf: seq<Byte>, n: nat) {
    forall va: nat :: start <= va < start + n ==>
      va / PAGE in pt && Translate(pt, va) < |mem| && va - start < |buf| && buf[va - start] == mem[Translate(pt, va)]
  }

  /** Copying one more chunk, in either direction, extends what agrees. */
  lemma HoldsMore(pt: map<nat, nat>, start: nat, mem: seq<Byte>, buf: seq<Byte>, c: Chunk)
    requires ChunkOk(pt, start, c) && Holds(pt, start, mem, buf, c.offset)
    requires c.paddr + c.size <= |mem| && c.offset + c.size <= |buf|
    requires mem[c.paddr..c.paddr + c.size] == buf[c.offset..c.offset + c.size]
    ensures Holds(pt, start, mem, buf, c.offset + c.size)
  {
    forall va: nat | start + c.offset <= va < start + c.offset + c.size
      ensures va / PAGE in pt && Translate(pt, va) < |mem| && buf[va - start] == mem[Translate(pt, va)]
    {
      var i := va - start - c.offset;
      assert mem[c.paddr..c.paddr + c.size][i] == buf[c.offset..c.offset + c.size][i];
    }
  }

  method Read(mem: array<Byte>, a: Space, start: nat, buf: array<Byte>) returns (r: Result)
    requires mem != buf && Backed(a.pt, mem.Length)
    modifies buf
    ensures r == if !InRange(a, start, buf.Length) then Err(InvalidInput)
                 else if !Mapped(a.pt, start, buf.Length) then Err(BadAddress) else Ok
    ensures r.Ok? ==> Holds(a.pt, start, mem[..], buf[..], buf.Length)
  {
    var chunks;
    r, chunks := ProcessArea(a, start, buf.Length);
    var k := 0;
    ghost var done: nat := 0;
    while k < |chunks|
      invariant k <= |chunks|
      invariant r.Ok? ==> Tile(chunks[..k], done) && Holds(a.pt, start, mem[..], buf[..], done)
    {
      var c := chunks[k];
      ghost var before := buf[..];
      ChunkInMemory(a.pt, start, c, mem.Length);
      Copy(mem, c.paddr, buf, c.offset, c.size);
      if r.Ok? {
        TilePrefix(chunks, buf.Length, k, done);
        assert forall i :: 0 <= i < done ==> buf[..][i] == before[i];
        HoldsMore(a.pt, start, mem[..], buf[..], c);
        done := done + c.size;
      }
      k := k + 1;
    }
    if r.Ok? {
      assert chunks[..k] == chunks;
      TileUnique(chunks, done, buf.Length);
    }
  }

  /** Physical address `pa` belongs to the first `n` bytes of the range. */
  ghost predicate InImage(pt: map<nat, nat>, start: nat, n: nat, pa: int) {
    exists va: nat :: start <= va < start + n && va / PAGE in pt && Translate(pt, va) == pa
  }

  ghost predicate OnlyChanged(pt: map<nat, nat>, start: nat, n: nat, before: seq<Byte>, after: seq<Byte>) {
    |before| == |after| && forall pa :: 0 <= pa < |after| && !InImage(pt, start, n, pa) ==> after[pa] == before[pa]
  }

  /** A byte written later is another byte. */
  lemma WriteKeeps(pt: map<nat, nat>, start: nat, before: seq<Byte>, after: seq<Byte>, buf: seq<Byte>, c: Chunk)
    requires Injective(pt) && ChunkOk(pt, start, c) && Holds(pt, start, before, buf, c.offset)
    requires |before| == |after|
    requires forall pa :: 0 <= pa < |after| && !(c.paddr <= pa < c.paddr + c.size) ==> after[pa] == before[pa]
    ensures Holds(pt, start, after, buf, c.offset)
  {
    forall va: nat | start <= va < start + c.offset
      ensures !(c.paddr <= Translate(pt, va) < c.paddr + c.size)
    {
      var pa := Translate(pt, va);
      if c.paddr <= pa < c.paddr + c.size {
        var vb := start + c.offset + (pa - c.paddr);
        TranslateInjective(pt, va, vb);
      }
    }
  }

  lemma ChunkInImage(pt: map<nat, nat>, start: nat, n: nat, c: Chunk, before: seq<Byte>, after: seq<Byte>)
    requires ChunkOk(pt, start, c) && c.offset + c.size <= n && |before| == |after|
    requires forall pa :: 0 <= pa < |after| && !(c.paddr <= pa < c.paddr + c.size) ==> after[pa] == before[pa]
    ensures OnlyChanged(pt, start, n, before, after)
  {
    forall pa | c.paddr <= pa < c.paddr + c.size
      ensures InImage(pt, start, n, pa)
    {
      var va := start + c.offset + (pa - c.paddr);
      assert Translate(pt, va) == pa;
    }
  }

  /** What was written is there, byte for byte, unless pages share frames; nothing else changes. */
  method Write(mem: array<Byte>, a: Space, start: nat, buf: array<Byte>, size: nat) returns (r: Result)
    requires mem != buf && Backed(a.pt, mem.Length) && size <= buf.Length
    modifies mem
    ensures r == if !InRange(a, start, size) then Err(InvalidInput)
                 else if !Mapped(a.pt, start, size) then Err(BadAddress) else Ok
    ensures r.Ok? && Injective(a.pt) ==> Holds(a.pt, start, mem[..], buf[..], size)
    ensures OnlyChanged(a.pt, start, size, old(mem[..]), mem[..])
  {
    var chunks;
    r, chunks := ProcessArea(a, start, size);
    var k := 0;
    ghost var done: nat := 0;
    while k < |chunks|
      invariant k <= |chunks|
      invariant r.Ok? ==> Tile(chunks[..k], done)
      invariant r.Ok? && Injective(a.pt) ==> Holds(a.pt, start, mem[..], buf[..], done)
      invariant OnlyChanged(a.pt, start, size, old(mem[..]), mem[..])
    {
      var c := chunks[k];
      ghost var before := mem[..];
      ChunkInMemory(a.pt, start, c, mem.Length);
      Copy(buf, c.offset, mem, c.paddr, c.size);
      ChunkInImage(a.pt, start, size, c, before, mem[..]);
      if r.Ok? {
        TilePrefix(chunks, size, k, done);
        if Injective(a.pt) {
          WriteKeeps(a.pt, start, before, mem[..], buf[..], c);
          HoldsMore(a.pt, start, mem[..], buf[..], c);
        }
        done := done + c.size;
      }
      k := k + 1;
    }
    if r.Ok? {
      assert chunks[..k] == chunks;
      TileUnique(chunks, done, size);
    }
  }

  lemma TileUnique(chunks: seq<Chunk>, m: nat, n: nat)
    requires Tile(chunks, m) && Tile(chunks, n)
    ensures m == n
  {
  }

  /** Each chunk of a tiling begins where the ones before it end. */
  lemma {:induction false} TilePrefix(chunks: seq<Chunk>, n: nat, k: nat, done: nat)
    requires Tile(chunks, n) && k < |chunks| && Tile(chunks[..k], done)
    ensures chunks[k].offset == done && Tile(chunks[..k + 1], done + chunks[k].size)
    decreases |chunks|
  {
    var last := |chunks| - 1;
    if k == last {
      TileUnique(chunks[..k], done, chunks[k].offset);
      assert chunks[..k + 1] == chunks;
    } else {
      var front := chunks[..last];
      assert front[..k] == chunks[..k] && front[..k + 1] == chunks[..k + 1];
      TilePrefix(front, chunks[last].offset, k, done);
    }
  }

  /** What is read is what was written. */
  lemma ReadBack(pt: map<nat, nat>, start: nat, mem: seq<Byte>, written: seq<Byte>, read: seq<Byte>, n: nat)
    requires Holds(pt, start, mem, written, n) && Holds(pt, start, mem, read, n) && n <= |written| && n <= |read|
    ensures written[..n] == read[..n]
  {
    forall i | 0 <= i < n
      ensures written[i] == read[i]
    {
      var va := start + i;
      assert written[va - start] == mem[Translate(pt, va)] == read[va - start];
    }
  }

  // ---------------------------------------------------------------- clone

  datatype Area = Area(start: nat, size: nat)

  /** The capacity of a vector of capacity `cap` after `resize` to `n` bytes (amortized doubling). */
  function Grown(cap: nat, n: nat): nat {
    if n <= cap then cap else if n < 2 * cap then 2 * cap else n
  }

  /** The capacity of the bounce buffer when area `i` is copied. */
  function Capacity(areas: seq<Area>, i: nat): nat
    requires i <= |areas|
  {
    if i == 0 then PAGE else Grown(Capacity(areas, i - 1), areas[i - 1].size)
  }

  /** The length of the bounce buffer for area `i`: that many bytes are read, not those of the area. */
  function BufferLength(areas: seq<Area>, i: nat): nat
    requires i < |areas|
  {
    if Capacity(areas, i) > areas[i].size then Capacity(areas, i) else areas[i].size
  }

  ghost predicate AreaClones(a: Space, areas: seq<Area>, newPt: map<nat, nat>, i: nat)
    requires i < |areas|
  {
    && InRange(a, areas[i].start, BufferLength(areas, i))
    && Mapped(a.pt, areas[i].start, BufferLength(areas, i))
    && Mapped(newPt, areas[i].start, areas[i].size)
  }

  ghost predicate CanClone(a: Space, areas: seq<Area>, newPt: map<nat, nat>) {
    forall i: nat :: i < |areas| ==> AreaClones(a, areas, newPt, i)
  }

  /** The areas hold the same bytes in the new space as in the old one. */
  ghost predicate SameBytes(pt: map<nat, nat>, before: seq<Byte>, newPt: map<nat, nat>, after: seq<Byte>, area: Area) {
    forall va: nat :: area.start <= va < area.start + area.size ==>
      && va / PAGE in pt && Translate(pt, va) < |before| && va / PAGE in newPt && Translate(newPt, va) < |after|
      && after[Translate(newPt, va)] == before[Translate(pt, va)]
  }

  /** Two spaces without a common frame. */
  ghost predicate Apart(pt: map<nat, nat>, other: map<nat, nat>) {
    forall p, q :: p in pt && q in other ==> pt[p] != other[q]
  }

  /** The frames of the new space are fresh. */
  ghost predicate Fresh(pt: map<nat, nat>, newPt: map<nat, nat>) {
    Injective(newPt) && Apart(pt, newPt)
  }

  /** No byte of the old space changes. */
  ghost predicate OldKept(pt: map<nat, nat>, before: seq<Byte>, after: seq<Byte>) {
    |before| == |after| &&
    forall va: nat :: va / PAGE in pt && Translate(pt, va) < |after| ==>
      after[Translate(pt, va)] == before[Translate(pt, va)]
  }

  lemma WriteKeepsOld(pt: map<nat, nat>, newPt: map<nat, nat>, start: nat, n: nat,
                      first: seq<Byte>, before: seq<Byte>, after: seq<Byte>)
    requires Fresh(pt, newPt) && OldKept(pt, first, before) && OnlyChanged(newPt, start, n, before, after)
    ensures OldKept(pt, first, after)
  {
    forall va: nat | va / PAGE in pt && Translate(pt, va) < |after|
      ensures !InImage(newPt, start, n, Translate(pt, va))
    {
    }
  }

  /** Cloning an area does not spoil another one, even if the two overlap. */
  lemma WriteKeepsAreas(pt: map<nat, nat>, newPt: map<nat, nat>, first: seq<Byte>, before: seq<Byte>, after: seq<Byte>,
                        area: Area, other: Area)
    requires Injective(newPt) && OnlyChanged(newPt, area.start, area.size, before, after)
    requires SameBytes(pt, first, newPt, after, area) && SameBytes(pt, first, newPt, before, other)
    ensures SameBytes(pt, first, newPt, after, other)
  {
    forall va: nat | other.start <= va < other.start + other.size
      ensures after[Translate(newPt, va)] == first[Translate(pt, va)]
    {
      if InImage(newPt, area.start, area.size, Translate(newPt, va)) {
        var vb: nat :| area.start <= vb < area.start + area.size && vb / PAGE in newPt
                    && Translate(newPt, vb) == Translate(newPt, va);
        TranslateInjective(newPt, va, vb);
      }
    }
  }

  lemma CopiedArea(pt: map<nat, nat>, newPt: map<nat, nat>, first: seq<Byte>, before: seq<Byte>, after: seq<Byte>,
                   buf: seq<Byte>, area: Area, n: nat)
    requires area.size <= n && Holds(pt, area.start, before, buf, n) && OldKept(pt, first, before)
    requires Holds(newPt, area.start, after, buf, area.size)
    ensures SameBytes(pt, first, newPt, after, area)
  {
  }

  method CloneArea(mem: array<Byte>, a: Space, areas: seq<Area>, newPt: map<nat, nat>, i: nat, cap: nat)
    returns (r: Result)
    requires i < |areas| && cap == Capacity(areas, i)
    requires Backed(a.pt, mem.Length) && Backed(newPt, mem.Length) && Fresh(a.pt, newPt)
    modifies mem
    ensures r.Ok? <==> AreaClones(a, areas, newPt, i)
    ensures OnlyChanged(newPt, areas[i].start, areas[i].size, old(mem[..]), mem[..])
    ensures r.Ok? ==>
      exists buf :: Holds(a.pt, areas[i].start, old(mem[..]), buf, BufferLength(areas, i))
                 && Holds(newPt, areas[i].start, mem[..], buf, areas[i].size)
  {
    var area := areas[i];
    var buf := new Byte[if cap > area.size then cap else area.size];
    r := Read(mem, a, area.start, buf);
    if r.Ok? {
      r := Write(mem, a.(pt := newPt), area.start, buf, area.size);
    }
  }

  method Clone(mem: array<Byte>, a: Space, areas: seq<Area>, newPt: map<nat, nat>) returns (r: Result)
    requires Backed(a.pt, mem.Length) && Backed(newPt, mem.Length) && Fresh(a.pt, newPt)
    modifies mem
    ensures r.Ok? <==> CanClone(a, areas, newPt)
    ensures OldKept(a.pt, old(mem[..]), mem[..])
    ensures r.Ok? ==> forall i: nat :: i < |areas| ==> SameBytes(a.pt, old(mem[..]), newPt, mem[..], areas[i])
  {
    var k, cap := 0, PAGE;
    ghost var first := mem[..];
    while k < |areas|
      invariant k <= |areas| && cap == Capacity(areas, k)
      invariant OldKept(a.pt, first, mem[..])
      invariant forall i: nat :: i < k ==> AreaClones(a, areas, newPt, i)
      invariant forall i: nat :: i < k ==> SameBytes(a.pt, first, newPt, mem[..], areas[i])
    {
      ghost var before := mem[..];
      r := CloneArea(mem, a, areas, newPt, k, cap);
      WriteKeepsOld(a.pt, newPt, areas[k].start, areas[k].size, first, before, mem[..]);
      if r.Err? {
        return;
      }
      ghost var buf :| Holds(a.pt, areas[k].start, before, buf, BufferLength(areas, k))
                    && Holds(newPt, areas[k].start, mem[..], buf, areas[k].size);
      CopiedArea(a.pt, newPt, first, before, mem[..], buf, areas[k], BufferLength(areas, k));
      forall i: nat | i < k
        ensures SameBytes(a.pt, first, newPt, mem[..], areas[i])
      {
        WriteKeepsAreas(a.pt, newPt, first, before, mem[..], areas[k], areas[i]);
      }
      cap := Grown(cap, areas[k].size);
      k := k + 1;
    }
    r := Ok;
  }

  // ---------------------------------------------------------------- after the clone

  datatype Side = Parent | Child

  /** A write through one of the two spaces. */
  datatype Access = Access(side: Side, start: nat, size: nat)

  /** One of the writes through `side` reaches the byte at `pa`. */
  ghost predicate Reached(pt: map<nat, nat>, accesses: seq<Access>, side: Side, pa: int) {
    exists i :: 0 <= i < |accesses| && accesses[i].side == side && InImage(pt, accesses[i].start, accesses[i].size, pa)
  }

  /** The bytes of a space that are not written through it are what they were. */
  ghost predicate Private(pt: map<nat, nat>, accesses: seq<Access>, side: Side, before: seq<Byte>, after: seq<Byte>) {
    |before| == |after| && forall va: nat :: va / PAGE in pt && Translate(pt, va) < |after| ==>
      Reached(pt, accesses, side, Translate(pt, va)) || after[Translate(pt, va)] == before[Translate(pt, va)]
  }

  lemma OutsideImage(pt: map<nat, nat>, other: map<nat, nat>, va: nat, start: nat, n: nat)
    requires Apart(pt, other) && va / PAGE in pt
    ensures !InImage(other, start, n, Translate(pt, va))
  {
  }

  /** One more write, through the space itself or through the other one. */
  lemma PrivateStep(pt: map<nat, nat>, other: map<nat, nat>, accesses: seq<Access>, a: Access, side: Side,
                    first: seq<Byte>, before: seq<Byte>, after: seq<Byte>)
    requires Apart(pt, other) && Private(pt, accesses, side, first, before)
    requires OnlyChanged(if a.side == side then pt else other, a.start, a.size, before, after)
    ensures Private(pt, accesses + [a], side, first, after)
  {
    var all := accesses + [a];
    forall va: nat | va / PAGE in pt && Translate(pt, va) < |after|
      ensures Reached(pt, all, side, Translate(pt, va)) || after[Translate(pt, va)] == first[Translate(pt, va)]
    {
      var pa := Translate(pt, va);
      if Reached(pt, accesses, side, pa) {
        var i :| 0 <= i < |accesses| && accesses[i].side == side
              && InImage(pt, accesses[i].start, accesses[i].size, pa);
        assert all[i] == accesses[i];
      } else if a.side == side && InImage(pt, a.start, a.size, pa) {
        assert all[|accesses|] == a;
      } else {
        OutsideImage(pt, other, va, a.start, a.size);
      }
    }
  }

  /**
   Any sequence of writes through the two spaces: a byte of either space changes only if a
   write through that space reaches it.
   */
  method UseBoth(mem: array<Byte>, a: Space, newPt: map<nat, nat>, accesses: seq<Access>, data: array<Byte>)
    requires mem != data && Backed(a.pt, mem.Length) && Backed(newPt, mem.Length) && Apart(a.pt, newPt)
    requires forall i :: 0 <= i < |accesses| ==> accesses[i].size <= data.Length
    modifies mem
    ensures Private(a.pt, accesses, Parent, old(mem[..]), mem[..])
    ensures Private(newPt, accesses, Child, old(mem[..]), mem[..])
  {
    var k := 0;
    while k < |accesses|
      invariant k <= |accesses|
      invariant Private(a.pt, accesses[..k], Parent, old(mem[..]), mem[..])
      invariant Private(newPt, accesses[..k], Child, old(mem[..]), mem[..])
    {
      ghost var before := mem[..];
      var access := accesses[k];
      var _ := Write(mem, if access.side.Parent? then a else a.(pt := newPt), access.start, data, access.size);
      PrivateStep(a.pt, newPt, accesses[..k], access, Parent, old(mem[..]), before, mem[..]);
      PrivateStep(newPt, a.pt, accesses[..k], access, Child, old(mem[..]), before, mem[..]);
      assert accesses[..k + 1] == accesses[..k] + [access];
      k := k + 1;
    }
    assert accesses[..k] == accesses;
  }

  /** The areas hold in the new space what they held in the old one, where no write through the new one got. */
  ghost predicate Inherited(pt: map<nat, nat>, before: seq<Byte>, newPt: map<nat, nat>, after: seq<Byte>,
                            accesses: seq<Access>, area: Area)
  {
    forall va: nat :: area.start <= va < area.start + area.size ==>
      && va / PAGE in pt && Translate(pt, va) < |before| && va / PAGE in newPt && Translate(newPt, va) < |after|
      && (Reached(newPt, accesses, Child, Translate(newPt, va))
          || after[Translate(newPt, va)] == before[Translate(pt, va)])
  }

  lemma KeptPrivate(pt: map<nat, nat>, accesses: seq<Access>, side: Side,
                    first: seq<Byte>, before: seq<Byte>, after: seq<Byte>)
    requires OldKept(pt, first, before) && Private(pt, accesses, side, before, after)
    ensures Private(pt, accesses, side, first, after)
  {
  }

  lemma SameInherited(pt: map<nat, nat>, newPt: map<nat, nat>, first: seq<Byte>, before: seq<Byte>, after: seq<Byte>,
                      accesses: seq<Access>, area: Area)
    requires SameBytes(pt, first, newPt, before, area) && Private(newPt, accesses, Child, before, after)
    ensures Inherited(pt, first, newPt, after, accesses, area)
  {
  }

  /**
   A clone and then any writes of the parent and the child: the child sees the bytes of the
   moment of the clone except where it wrote itself, the parent its own except where it did.
   */
  method CloneThenUse(mem: array<Byte>, a: Space, areas: seq<Area>, newPt: map<nat, nat>,
                      accesses: seq<Access>, data: array<Byte>) returns (r: Result)
    requires mem != data && Backed(a.pt, mem.Length) && Backed(newPt, mem.Length) && Fresh(a.pt, newPt)
    requires forall i :: 0 <= i < |accesses| ==> accesses[i].size <= data.Length
    modifies mem
    ensures r.Ok? <==> CanClone(a, areas, newPt)
    ensures r.Ok? ==> Private(a.pt, accesses, Parent, old(mem[..]), mem[..])
    ensures r.Ok? ==> forall i: nat :: i < |areas| ==>
      Inherited(a.pt, old(mem[..]), newPt, mem[..], accesses, areas[i])
  {
    r := Clone(mem, a, areas, newPt);
    if r.Ok? {
      ghost var cloned := mem[..];
      UseBoth(mem, a, newPt, accesses, data);
      KeptPrivate(a.pt, accesses, Parent, old(mem[..]), cloned, mem[..]);
      forall i: nat | i < |areas|
        ensures Inherited(a.pt, old(mem[..]), newPt, mem[..], accesses, areas[i])
      {
        SameInherited(a.pt, newPt, old(mem[..]), cloned, mem[..], accesses, areas[i]);
      }
    }
  }

  /** Two mapped areas, the second one smaller and followed by nothing: the clone fails. */
  lemma CloneCanFail()
    ensures var pt: map<nat, nat> := map[1 := 10, 2 := 11, 16 := 12];
      var newPt: map<nat, nat> := map[1 := 20, 2 := 21, 16 := 22];
      var a := Space(0, 0x10_0000, pt);
      var areas := [Area(0x1000, 0x2000), Area(0x10000, 0x1000)];
      && (forall i: nat :: i < |areas| ==>
            InRange(a, areas[i].start, areas[i].size) && Mapped(pt, areas[i].start, areas[i].size))
      && Fresh(pt, newPt) && !CanClone(a, areas, newPt)
  {
    var pt: map<nat, nat> := map[1 := 10, 2 := 11, 16 := 12];
    var newPt: map<nat, nat> := map[1 := 20, 2 := 21, 16 := 22];
    var a := Space(0, 0x10_0000, pt);
    var areas := [Area(0x1000, 0x2000), Area(0x10000, 0x1000)];
    assert Capacity(areas, 0) == 4096 && Capacity(areas, 1) == 8192;
    assert Touches(0x10000, 0x2000, 17) && 17 !in pt;
    assert !AreaClones(a, areas, newPt, 1);
  }

  /** The buffer doubles: behind an area of more than a page, two pages are read for every area below two pages. */
  lemma CloneReadsTwoPages(a: Space, first: Area, second: Area, newPt: map<nat, nat>)
    requires PAGE < first.size < 2 * PAGE && second.size < 2 * PAGE
    ensures CanClone(a, [first, second], newPt) <==>
      && InRange(a, first.start, first.size) && Mapped(a.pt, first.start, first.size)
      && Mapped(newPt, first.start, first.size)
      && InRange(a, second.start, 2 * PAGE) && Mapped(a.pt, second.start, 2 * PAGE)
      && Mapped(newPt, second.start, second.size)
  {
    var areas := [first, second];
    assert Capacity(areas, 1) == 2 * PAGE;
    assert BufferLength(areas, 0) == first.size && BufferLength(areas, 1) == 2 * PAGE;
    assert CanClone(a, areas, newPt) <==> AreaClones(a, areas, newPt, 0) && AreaClones(a, areas, newPt, 1);
  }

  /** Areas that are at least as large as the buffer so far are cloned whenever they are mapped. */
  lemma GrowingAreasClone(a: Space, areas: seq<Area>, newPt: map<nat, nat>)
    requires forall i: nat :: i < |areas| ==> areas[i].size >= Capacity(areas, i)
    ensures CanClone(a, areas, newPt) <==> forall i: nat :: i < |areas| ==>
      InRange(a, areas[i].start, areas[i].size) && Mapped(a.pt, areas[i].start, areas[i].size)
      && Mapped(newPt, areas[i].start, areas[i].size)
  {
    forall i: nat | i < |areas|
      ensures BufferLength(areas, i) == areas[i].size
    {
    }
    if CanClone(a, areas, newPt) {
      forall i: nat | i < |areas|
        ensures InRange(a, areas[i].start, areas[i].size) && Mapped(a.pt, areas[i].start, areas[i].size)
        ensures Mapped(newPt, areas[i].start, areas[i].size)
      {
        assert AreaClones(a, areas, newPt, i);
      }
    }
  }
}
