/** `memcpy`, `memmove` and `memset` on one memory; addresses are 64-bit. */
module MemCopy {
  import opened Common

  const WRAP: int := 0x1_0000_0000_0000_0000

  /** Memory after the `n` bytes from `s` on have been copied to `d`. */
  function Moved(mem: seq<Byte>, d: nat, s: nat, n: nat): seq<Byte>
    requires d + n <= |mem| && s + n <= |mem|
  {
    seq(|mem|, i requires 0 <= i < |mem| => if d <= i < d + n then mem[i - d + s] else mem[i])
  }

  /** The ranges share no byte, as `restrict` demands. */
  predicate Disjoint(d: nat, s: nat, n: nat) {
    d + n <= s || s + n <= d
  }

  /** Copying one byte more at the end, or one byte more at the front. */
  lemma MovedUp(mem: seq<Byte>, d: nat, s: nat, n: nat)
    requires d + n < |mem| && s + n < |mem| && (d <= s || s + n < d)
    ensures Moved(mem, d, s, n)[s + n] == mem[s + n]
    ensures Moved(mem, d, s, n)[d + n := mem[s + n]] == Moved(mem, d, s, n + 1)
  {
  }

  lemma MovedDown(mem: seq<Byte>, d: nat, s: nat, n: nat)
    requires d + n < |mem| && s < d
    ensures Moved(mem, d + 1, s + 1, n)[s] == mem[s]
    ensures Moved(mem, d + 1, s + 1, n)[d := mem[s]] == Moved(mem, d, s, n + 1)
  {
  }

  /** The first bytes first: right whenever the destination is not inside what is still to be read. */
  method CopyUpwards(mem: array<Byte>, d: nat, s: nat, n: nat)
    requires d + n <= mem.Length && s + n <= mem.Length && (d <= s || s + n <= d)
    modifies mem
    ensures mem[..] == Moved(old(mem[..]), d, s, n)
  {
    var k: nat := 0;
    while k < n
      invariant k <= n
      invariant mem[..] == Moved(old(mem[..]), d, s, k)
    {
      MovedUp(old(mem[..]), d, s, k);
      mem[d + k] := mem[s + k];
      k := k + 1;
    }
  }

  method CopyDownwards(mem: array<Byte>, d: nat, s: nat, n: nat)
    requires d + n <= mem.Length && s < d
    modifies mem
    ensures mem[..] == Moved(old(mem[..]), d, s, n)
  {
    var m: nat := n;
    while m > 0
      invariant m <= n
      invariant mem[..] == Moved(old(mem[..]), d + m, s + m, n - m)
    {
      m := m - 1;
      MovedDown(old(mem[..]), d + m, s + m, n - m - 1);
      mem[d + m] := mem[s + m];
    }
  }

  /** The bytes that the copy will overwrite are read first. */
  method CopyInOrder(mem: array<Byte>, d: nat, s: nat, n: nat)
    requires d + n <= mem.Length && s + n <= mem.Length && d != s
    modifies mem
    ensures mem[..] == Moved(old(mem[..]), d, s, n)
  {
    if d < s {
      CopyUpwards(mem, d, s, n);
    } else {
      CopyDownwards(mem, d, s, n);
    }
  }

  method Memcpy(mem: array<Byte>, d: nat, s: nat, n: nat)
    requires d + n <= mem.Length && s + n <= mem.Length && Disjoint(d, s, n)
    modifies mem
    ensures mem[..] == Moved(old(mem[..]), d, s, n)
  {
    CopyUpwards(mem, d, s, n);
  }

  /** The unsigned comparison finds out exactly whether `memcpy` may be used. */
  lemma OverlapTest(d: nat, s: nat, n: nat)
    requires d != s && d < WRAP && s < WRAP && n < WRAP / 2 && d + n <= WRAP && s + n <= WRAP
    ensures (s - d - n) % WRAP <= (-2 * n) % WRAP <==> n > 0 && Disjoint(d, s, n)
  {
    if n > 0 {
      assert (-2 * n) % WRAP == WRAP - 2 * n;
      if d + n <= s {
        assert (s - d - n) % WRAP == s - d - n;
      } else {
        assert (s - d - n) % WRAP == s - d - n + WRAP;
      }
    }
  }

  lemma MovedNowhere(mem: seq<Byte>, d: nat, n: nat)
    requires d + n <= |mem|
    ensures Moved(mem, d, d, n) == mem
  {
  }

  method FarApart(dest: nat, src: nat, n: nat) returns (apart: bool)
    requires dest != src && dest < WRAP && src < WRAP && n < WRAP / 2 && dest + n <= WRAP && src + n <= WRAP
    ensures apart <==> n > 0 && Disjoint(dest, src, n)
  {
    OverlapTest(dest, src, n);
    apart := (src - dest - n) % WRAP <= (-2 * n) % WRAP;
  }

  /** `mem` stands at address `base`, anywhere in the 64-bit address space. */
  method Memmove(mem: array<Byte>, base: nat, dest: nat, src: nat, n: nat)
    requires base + mem.Length <= WRAP && base <= dest && base <= src && dest < WRAP && src < WRAP
    requires dest + n <= base + mem.Length && src + n <= base + mem.Length && n < WRAP / 2
    modifies mem
    ensures mem[..] == Moved(old(mem[..]), dest - base, src - base, n)
  {
    var d, s := dest - base, src - base;
    if dest == src {
      MovedNowhere(mem[..], d, n);
      return;
    }
    var apart := FarApart(dest, src, n);
    if apart {
      Memcpy(mem, d, s, n);
    } else {
      CopyInOrder(mem, d, s, n);
    }
  }

  /** Memory after the `n` bytes from `d` on have been set. */
  function Filled(mem: seq<Byte>, d: nat, n: nat, c: Byte): (r: seq<Byte>)
    requires d + n <= |mem|
  {
    seq(|mem|, i requires 0 <= i < |mem| => if d <= i < d + n then c else mem[i])
  }

  /** Head and tail by hand, the aligned rest in a loop: every byte, and no other. */
  method Memset(mem: array<Byte>, d: nat, c: Byte, n0: nat)
    requires d + n0 <= mem.Length
    modifies mem
    ensures mem[..] == Filled(old(mem[..]), d, n0, c)
  {
    var s, n := d, n0;
    if n == 0 {
      return;
    }
    mem[s], mem[s + n - 1] := c, c;
    if n <= 2 {
      return;
    }
    mem[s + 1], mem[s + 2], mem[s + n - 2], mem[s + n - 3] := c, c, c, c;
    if n <= 6 {
      return;
    }
    mem[s + 3], mem[s + n - 4] := c, c;
    if n <= 8 {
      return;
    }
    var k := (-s) % 4;
    s, n := s + k, n - k;
    n := n - n % 4;
    ghost var from, to := s, s + n;
    while n > 0
      invariant from <= s <= to == s + n
      invariant forall i :: d <= i < s || to <= i < d + n0 ==> mem[i] == c
      invariant forall i :: 0 <= i < mem.Length && !(d <= i < d + n0) ==> mem[i] == old(mem[i])
      decreases n
    {
      mem[s] := c;
      n, s := n - 1, s + 1;
    }
  }
}
