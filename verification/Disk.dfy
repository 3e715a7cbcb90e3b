/**
 The cursor over a block device, against one flat array of bytes. Blocks past the end of
 the device give an error, and so do some on reading and some on writing.
 */
module Disk {
  import opened Common

  const BLOCK: nat := 512

  /** The flat array with `data` put at position `at`. */
  function Patched(dev: seq<Byte>, at: nat, data: seq<Byte>): seq<Byte>
    requires at + |data| <= |dev|
  {
    dev[..at] + data + dev[at + |data|..]
  }

  lemma PatchedTwice(dev: seq<Byte>, at: nat, a: seq<Byte>, b: seq<Byte>)
    requires at + |a| + |b| <= |dev|
    ensures Patched(Patched(dev, at, a), at + |a|, b) == Patched(dev, at, a + b)
  {
  }

  /** The first `len` bytes of the buffer are those of the array from `at` on. */
  ghost predicate Got(dev: seq<Byte>, at: nat, len: nat, buf: seq<Byte>) {
    len > 0 ==> at + len <= |dev| && len <= |buf| && buf[..len] == dev[at..at + len]
  }

  /** The bytes from `n` on are as before. */
  ghost predicate KeptFrom(before: seq<Byte>, n: nat, after: seq<Byte>) {
    |after| == |before| && forall k :: n <= k < |before| ==> after[k] == before[k]
  }

  /** Bytes that are read behind others. */
  lemma GotMore(dev: seq<Byte>, at: nat, len: nat, n: nat, before: seq<Byte>, after: seq<Byte>)
    requires at + len + n <= |dev| && len + n <= |before| && Got(dev, at, len, before)
    requires after == Patched(before, len, dev[at + len..at + len + n])
    ensures Got(dev, at, len + n, after) && KeptFrom(before, len + n, after)
  {
    assert after[..len + n] == before[..len] + dev[at + len..at + len + n];
  }

  /** `after` is `dev` with `data` put at `at`. */
  ghost predicate Put(dev: seq<Byte>, at: nat, data: seq<Byte>, after: seq<Byte>) {
    if data == [] then after == dev else at + |data| <= |dev| && after == Patched(dev, at, data)
  }

  /** Bytes that are written behind others. */
  lemma PutMore(dev: seq<Byte>, at: nat, buf: seq<Byte>, len: nat, n: nat)
    requires len + n <= |buf| && at + len + n <= |dev|
    ensures Patched(Patched(dev, at, buf[..len]), at + len, buf[len..][..n]) == Patched(dev, at, buf[..len + n])
    ensures Patched(dev, at, buf[..0]) == dev
  {
    PatchedTwice(dev, at, buf[..len], buf[len..][..n]);
    assert buf[..len] + buf[len..][..n] == buf[..len + n];
  }

  /** Part of a block is part of the array. */
  lemma BlockPart(dev: seq<Byte>, block: nat, start: nat, count: nat)
    requires block + BLOCK <= |dev| && start + count <= BLOCK
    ensures dev[block..block + BLOCK][start..start + count] == dev[block + start..block + start + count]
  {
    var part, whole := dev[block..block + BLOCK][start..start + count], dev[block + start..block + start + count];
    forall k | 0 <= k < count
      ensures part[k] == whole[k]
    {
      assert part[k] == dev[block..block + BLOCK][start + k];
    }
  }

  /** Writing a block back with some bytes changed changes those bytes of the array. */
  lemma BlockPatch(dev: seq<Byte>, block: nat, start: nat, data: seq<Byte>)
    requires block + BLOCK <= |dev| && start + |data| <= BLOCK
    ensures Patched(dev, block, Patched(dev[block..block + BLOCK], start, data)) == Patched(dev, block + start, data)
  {
    var block', whole := Patched(dev[block..block + BLOCK], start, data), Patched(dev, block + start, data);
    forall k | 0 <= k < |dev|
      ensures Patched(dev, block, block')[k] == whole[k]
    {
    }
  }

  class Disk {
    var blockId: nat
    var offset: nat
    var dev: seq<Byte>
    const unreadable: set<nat>
    const unwritable: set<nat>

    ghost predicate Valid()
      reads this
    {
      offset < BLOCK && |dev| % BLOCK == 0
    }

    ghost function Position(): nat
      reads this
    {
      blockId * BLOCK + offset
    }

    predicate ReadFails(id: nat)
      reads this
    {
      id in unreadable || (id + 1) * BLOCK > |dev|
    }

    predicate WriteFails(id: nat)
      reads this
    {
      id in unwritable || (id + 1) * BLOCK > |dev|
    }

    /** A part of a block is written by reading the block, changing it and writing it back. */
    predicate PutFails(len: nat)
      reads this
    {
      WriteFails(blockId) || (!(offset == 0 && len >= BLOCK) && ReadFails(blockId))
    }

    constructor (dev: seq<Byte>, unreadable: set<nat>, unwritable: set<nat>)
      requires |dev| % BLOCK == 0
      ensures Valid() && Position() == 0
      ensures this.dev == dev && this.unreadable == unreadable && this.unwritable == unwritable
    {
      blockId, offset := 0, 0;
      this.dev, this.unreadable, this.unwritable := dev, unreadable, unwritable;
    }

    method SetPosition(pos: nat)
      requires Valid()
      modifies this`blockId, this`offset
      ensures Valid() && Position() == pos
    {
      blockId := pos / BLOCK;
      offset := pos % BLOCK;
    }

    method ReadBlock(id: nat) returns (r: Option<seq<Byte>>)
      ensures r.None? <==> ReadFails(id)
      ensures r.Some? ==> r.value == dev[id * BLOCK..(id + 1) * BLOCK]
    {
      if ReadFails(id) {
        return None;
      }
      return Some(dev[id * BLOCK..(id + 1) * BLOCK]);
    }

    method WriteBlock(id: nat, data: seq<Byte>) returns (ok: bool)
      requires |data| == BLOCK
      modifies this`dev
      ensures ok <==> !old(WriteFails(id))
      ensures dev == if ok then Patched(old(dev), id * BLOCK, data) else old(dev)
    {
      if WriteFails(id) {
        return false;
      }
      dev := dev[..id * BLOCK] + data + dev[(id + 1) * BLOCK..];
      return true;
    }

    method Advance(count: nat)
      requires Valid() && offset + count <= BLOCK
      modifies this`blockId, this`offset
      ensures Valid() && Position() == old(Position()) + count
      ensures old(offset) + count == BLOCK ==> offset == 0
    {
      offset := offset + count;
      if offset >= BLOCK {
        blockId, offset := blockId + 1, offset - BLOCK;
      }
    }

    /** What is left of the block and of the buffer: how many bytes one call transfers. */
    ghost function Share(len: nat): (n: nat)
      requires Valid()
      reads this
      ensures n <= len && (len > 0 ==> n > 0)
    {
      if len < BLOCK - offset then len else BLOCK - offset
    }

    method ReadOne(buf: array<Byte>, from: nat) returns (r: Option<nat>)
      requires Valid() && from <= buf.Length
      modifies this`blockId, this`offset, buf
      ensures Valid() && (r.None? <==> old(ReadFails(blockId)))
      ensures r.None? ==> Position() == old(Position()) && buf[..] == old(buf[..])
      ensures r.Some? ==>
        && r.value == old(Share(buf.Length - from))
        && Position() == old(Position()) + r.value <= |dev|
        && (r.value < buf.Length - from ==> offset == 0)
        && buf[..] == Patched(old(buf[..]), from, dev[old(Position())..old(Position()) + r.value])
    {
      var data := ReadBlock(blockId);
      if data.None? {
        return None;
      }
      var count;
      if offset == 0 && buf.Length - from >= BLOCK {
        count := BLOCK;
      } else {
        count := if buf.Length - from < BLOCK - offset then buf.Length - from else BLOCK - offset;
      }
      var start := offset;
      BlockPart(dev, blockId * BLOCK, start, count);
      ghost var part := data.value[start..start + count];
      forall k | 0 <= k < count {
        buf[from + k] := data.value[start + k];
      }
      Advance(count);
      return Some(count);
    }

    /** One more block share of a read that began at `at`. */
    method ReadMore(buf: array<Byte>, len: nat, ghost at: nat) returns (r: Option<nat>)
      requires Valid() && len < buf.Length && Position() == at + len && Got(dev, at, len, buf[..])
      modifies this`blockId, this`offset, buf
      ensures KeptFrom(old(buf[..]), if r.None? then len else len + r.value, buf[..])
      ensures Valid() && (r.None? ==> ReadFails(blockId) && blockId == old(blockId) && offset == old(offset))
      ensures r.Some? ==> 0 < r.value <= buf.Length - len && (r.value < buf.Length - len ==> offset == 0)
      ensures var n := if r.None? then len else len + r.value;
        Position() == at + n && Got(dev, at, n, buf[..])
    {
      ghost var before, pos := buf[..], Position();
      r := ReadOne(buf, len);
      if r.Some? {
        assert buf[..] == Patched(before, len, dev[pos..pos + r.value]);
        GotMore(dev, at, len, r.value, before, buf[..]);
      }
    }

    /** Reads the whole buffer, or up to the first block that fails. */
    method Read(buf: array<Byte>) returns (r: Option<nat>)
      requires Valid()
      modifies this`blockId, this`offset, buf
      ensures Valid() && old(Position()) <= Position() <= old(Position()) + buf.Length
      ensures r.Some? ==> r.value == buf.Length == Position() - old(Position())
      ensures r.None? ==> offset == 0 || Position() == old(Position())
      ensures r.None? ==> ReadFails(blockId)
      ensures Got(dev, old(Position()), Position() - old(Position()), buf[..])
      ensures KeptFrom(old(buf[..]), Position() - old(Position()), buf[..])
    {
      var len: nat := 0;
      ghost var at := Position();
      while len < buf.Length
        invariant len <= buf.Length && Valid() && Position() == at + len && Got(dev, at, len, buf[..])
        invariant KeptFrom(old(buf[..]), len, buf[..])
        invariant 0 < len < buf.Length ==> offset == 0
      {
        var n := ReadMore(buf, len, at);
        if n.None? {
          return None;
        }
        len := len + n.value;
      }
      return Some(len);
    }

    /** The bytes of a block from `offset` on are replaced. */
    method PutPart(data: seq<Byte>) returns (ok: bool)
      requires Valid() && offset + |data| <= BLOCK
      modifies this`dev
      ensures |dev| == |old(dev)| && (ok <==> !old(ReadFails(blockId) || WriteFails(blockId)))
      ensures ok ==> Position() + |data| <= |dev|
      ensures dev == if ok then Patched(old(dev), Position(), data) else old(dev)
    {
      var block := ReadBlock(blockId);
      if block.None? {
        return false;
      }
      BlockPatch(dev, blockId * BLOCK, offset, data);
      ok := WriteBlock(blockId, Patched(block.value, offset, data));
    }

    method WriteOne(buf: seq<Byte>) returns (r: Option<nat>)
      requires Valid()
      modifies this`blockId, this`offset, this`dev
      ensures Valid() && |dev| == |old(dev)| && (r.None? <==> old(PutFails(|buf|)))
      ensures r.None? ==> Position() == old(Position()) && dev == old(dev)
      ensures r.Some? ==>
        && r.value == old(Share(|buf|))
        && Position() == old(Position()) + r.value <= |dev|
        && dev == Patched(old(dev), old(Position()), buf[..r.value])
    {
      var count, ok;
      if offset == 0 && |buf| >= BLOCK {
        count := BLOCK;
        ok := WriteBlock(blockId, buf[..BLOCK]);
      } else {
        count := if |buf| < BLOCK - offset then |buf| else BLOCK - offset;
        ok := PutPart(buf[..count]);
      }
      if !ok {
        return None;
      }
      Advance(count);
      return Some(count);
    }

    /** One more block share of a write that began at `at` on the array `first`. */
    method WriteMore(buf: seq<Byte>, len: nat, ghost at: nat, ghost first: seq<Byte>) returns (r: Option<nat>)
      requires Valid() && len < |buf| && Position() == at + len && Put(first, at, buf[..len], dev)
      modifies this`blockId, this`offset, this`dev
      ensures Valid() && (r.None? ==> old(PutFails(|buf| - len)) && PutFails(|buf| - len))
      ensures r.Some? ==> 0 < r.value <= |buf| - len
      ensures var n := if r.None? then len else len + r.value;
        Position() == at + n && Put(first, at, buf[..n], dev)
    {
      r := WriteOne(buf[len..]);
      if r.Some? {
        PutMore(first, at, buf, len, r.value);
      }
    }

    /** Writes all the bytes, or up to the first block that fails, and no byte besides. */
    method Write(buf: seq<Byte>) returns (r: Option<nat>)
      requires Valid()
      modifies this`blockId, this`offset, this`dev
      ensures Valid() && old(Position()) <= Position() <= old(Position()) + |buf|
      ensures r.Some? ==> r.value == |buf| == Position() - old(Position())
      ensures r.None? ==> PutFails(|buf| - (Position() - old(Position())))
      ensures Put(old(dev), old(Position()), buf[..Position() - old(Position())], dev)
    {
      var len: nat := 0;
      ghost var at, first := Position(), dev;
      while len < |buf|
        invariant len <= |buf| && Valid() && Position() == at + len && Put(first, at, buf[..len], dev)
      {
        var n := WriteMore(buf, len, at, first);
        if n.None? {
          return None;
        }
        len := len + n.value;
      }
      return Some(len);
    }
  }
}
