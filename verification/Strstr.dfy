/** `strstr`: dispatch on the length of the needle, with rolling windows for short ones. */
module Strstr {
  import opened Arith
  import opened CStrings
  import opened Common
  import TwoWaySearch

  /** The value of a `char`, which is signed on some targets. */
  function CharValue(b: Byte, signed: bool): (v: int)
    ensures (v - b) % 256 == 0 && (if signed then -128 <= v < 128 else 0 <= v < 256)
  {
    if signed && b >= 128 then b - 256 else b
  }

  /** `strchr`: the first character equal to `c`, the terminator included; `c` is any `int`. */
  method FindByte(h: seq<Byte>, c: int, signed: bool) returns (r: Option<nat>)
    requires CString(h)
    ensures r.None? ==> forall k :: 0 <= k < |h| ==> CharValue(h[k], signed) != c
    ensures r.Some? ==> r.value < |h| && CharValue(h[r.value], signed) == c
    ensures r.Some? ==> forall k :: 0 <= k < r.value ==> CharValue(h[k], signed) != c
  {
    var i := 0;
    while CharValue(h[i], signed) != c && h[i] != 0
      invariant 0 <= i < |h|
      invariant forall k :: 0 <= k < i ==> CharValue(h[k], signed) != c
      decreases |h| - i
    {
      i := i + 1;
    }
    return if CharValue(h[i], signed) == c then Some(i) else None;
  }

  /** `a << 24 | b << 16 | c << 8 | d` for bytes `a` to `d`. */
  function Word(a: int, b: int, c: int, d: int): int {
    a * 0x100_0000 + b * 0x1_0000 + c * 0x100 + d
  }

  predicate IsByte(b: int) { 0 <= b < 256 }

  /** Shifting a word left by a byte, in 32 bits. */
  lemma ShiftWord(a: int, b: int, c: int, d: int, e: int)
    requires IsByte(a) && IsByte(b) && IsByte(c) && IsByte(d) && IsByte(e)
    ensures (Word(a, b, c, d) * 0x100 + e) % 0x1_0000_0000 == Word(b, c, d, e)
    ensures (Word(a, b, c, 0) + d) * 0x100 % 0x1_0000_0000 == Word(b, c, d, 0)
  {
    DivModUnique(Word(a, b, c, d) * 0x100 + e, 0x1_0000_0000, a, Word(b, c, d, e));
    DivModUnique((Word(a, b, c, 0) + d) * 0x100, 0x1_0000_0000, a, Word(b, c, d, 0));
  }

  /** The last byte of a number and what is before it. */
  lemma SameLastByte(x: int, d: int, x': int, d': int)
    requires IsByte(d) && IsByte(d') && x * 0x100 + d == x' * 0x100 + d'
    ensures x == x' && d == d'
  {
    DivModUnique(x * 0x100 + d, 0x100, x, d);
    DivModUnique(x' * 0x100 + d', 0x100, x', d');
  }

  /** Different words differ in a byte. */
  lemma SameWord(a: int, b: int, c: int, d: int, a': int, b': int, c': int, d': int)
    requires IsByte(a) && IsByte(b) && IsByte(c) && IsByte(d)
    requires IsByte(a') && IsByte(b') && IsByte(c') && IsByte(d')
    ensures Word(a, b, c, d) == Word(a', b', c', d') <==> a == a' && b == b' && c == c' && d == d'
  {
    if Word(a, b, c, d) == Word(a', b', c', d') {
      SameLastByte(a * 0x1_0000 + b * 0x100 + c, d, a' * 0x1_0000 + b' * 0x100 + c', d');
      SameLastByte(a * 0x100 + b, c, a' * 0x100 + b', c');
      SameLastByte(a, b, a', b');
    }
  }

  /** `twobyte_strstr`: the window is a 16-bit word. */
  method TwoBytes(h: seq<Byte>, from: nat, n: seq<Byte>) returns (r: Option<nat>)
    requires CString(h) && CString(n) && |n| == 3 && from + 2 < |h|
    ensures FirstMatch(h, n[..2], from, r)
  {
    var nw, hw := Word(0, 0, n[0], n[1]), Word(0, 0, h[from], h[from + 1]);
    var i := from + 1;
    while h[i] != 0 && hw != nw
      invariant from < i < |h|
      invariant hw == Word(0, 0, h[i - 1], h[i])
      invariant forall at :: from <= at < i - 1 ==> !Match(h, n[..2], at)
      decreases |h| - i
    {
      NoMatchByte(h, n[..2], i - 1, if h[i - 1] == n[0] then 1 else 0);
      i := i + 1;
      hw := (hw * 0x100 + h[i]) % 0x1_0000;
    }
    return if h[i] != 0 then Some(i - 1) else None;
  }

  /** `threebyte_strstr`: the window is the upper three bytes of a 32-bit word. */
  method ThreeBytes(h: seq<Byte>, from: nat, n: seq<Byte>) returns (r: Option<nat>)
    requires CString(h) && CString(n) && |n| == 4 && from + 3 < |h|
    ensures FirstMatch(h, n[..3], from, r)
  {
    var nw := Word(n[0], n[1], n[2], 0);
    var hw := Word(h[from], h[from + 1], h[from + 2], 0);
    var i := from + 2;
    while h[i] != 0 && hw != nw
      invariant from + 1 < i < |h|
      invariant hw == Word(h[i - 2], h[i - 1], h[i], 0)
      invariant forall at :: from <= at < i - 2 ==> !Match(h, n[..3], at)
      decreases |h| - i
    {
      SameWord(n[0], n[1], n[2], 0, h[i - 2], h[i - 1], h[i], 0);
      ShiftWord(h[i - 2], h[i - 1], h[i], h[i + 1], 0);
      NoMatchByte(h, n[..3], i - 2, if h[i - 2] != n[0] then 0 else if h[i - 1] != n[1] then 1 else 2);
      i := i + 1;
      hw := (hw + h[i]) * 0x100 % 0x1_0000_0000;
    }
    SameWord(n[0], n[1], n[2], 0, h[i - 2], h[i - 1], h[i], 0);
    return if h[i] != 0 then Some(i - 2) else None;
  }

  /** `fourbyte_strstr`: the window is a 32-bit word. */
  method FourBytes(h: seq<Byte>, from: nat, n: seq<Byte>) returns (r: Option<nat>)
    requires CString(h) && CString(n) && |n| == 5 && from + 4 < |h|
    ensures FirstMatch(h, n[..4], from, r)
  {
    var nw := Word(n[0], n[1], n[2], n[3]);
    var hw := Word(h[from], h[from + 1], h[from + 2], h[from + 3]);
    var i := from + 3;
    while h[i] != 0 && hw != nw
      invariant from + 2 < i < |h|
      invariant hw == Word(h[i - 3], h[i - 2], h[i - 1], h[i])
      invariant forall at :: from <= at < i - 3 ==> !Match(h, n[..4], at)
      decreases |h| - i
    {
      SameWord(n[0], n[1], n[2], n[3],
               h[i - 3], h[i - 2], h[i - 1], h[i]);
      ShiftWord(h[i - 3], h[i - 2], h[i - 1], h[i], h[i + 1]);
      NoMatchByte(h, n[..4], i - 3, if h[i - 3] != n[0] then 0 else if h[i - 2] != n[1] then 1
                                    else if h[i - 1] != n[2] then 2 else 3);
      i := i + 1;
      hw := (hw * 0x100 + h[i]) % 0x1_0000_0000;
    }
    SameWord(n[0], n[1], n[2], n[3],
             h[i - 3], h[i - 2], h[i - 1], h[i]);
    return if h[i] != 0 then Some(i - 3) else None;
  }

  lemma NoMatchByte(h: seq<Byte>, x: seq<Byte>, at: nat, k: nat)
    requires k < |x| && at + k < |h| && h[at + k] != x[k]
    ensures !Match(h, x, at)
  {
  }

  /**
   `strstr`: exactly the first occurrence of the needle, or none. No byte outside the
   two strings is read, and the search ends, for every pair of strings. `signed` says whether a
   plain `char` is signed.
   */
  method Find(h: seq<Byte>, n: seq<Byte>, signed: bool) returns (r: Option<nat>)
    requires CString(h) && CString(n)
    ensures FirstMatch(h, n[..|n| - 1], 0, r)
  {
    if n[0] == 0 {
      return Some(0);
    }
    ghost var x := n[..|n| - 1];
    r := FindByte(h, CharValue(n[0], signed), signed);
    if r.None? {
      forall at | 0 <= at < |h| ensures !Match(h, x, at) {
        NoMatchByte(h, x, at, 0);
      }
      return;
    }
    var p := r.value;
    forall at | 0 <= at < p ensures !Match(h, x, at) {
      NoMatchByte(h, x, at, 0);
    }
    if n[1] == 0 {
      return;
    }
    if h[p + 1] == 0 {
      return None;
    }
    if n[2] == 0 {
      r := TwoBytes(h, p, n);
      return;
    }
    if h[p + 2] == 0 {
      return None;
    }
    if n[3] == 0 {
      r := ThreeBytes(h, p, n);
      return;
    }
    if h[p + 3] == 0 {
      return None;
    }
    if n[4] == 0 {
      r := FourBytes(h, p, n);
      return;
    }
    r := TwoWaySearch.Search(h, p, n);
  }
}
