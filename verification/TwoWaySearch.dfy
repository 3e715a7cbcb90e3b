/** `twoway_strstr`: search in linear time and constant space, for needles of any length. */
module TwoWaySearch {
  import opened CStrings
  import opened Common
  import MaximalSuffix
  import opened Words

  // ---------------------------------------------------------------- what a window excludes

  /** The last byte of the window occurs in the needle only `k` or more before its end. */
  lemma SkipByLastByte(h: seq<Byte>, x: seq<Byte>, hp: nat, k: nat, at: int)
    requires 1 <= |x| && k <= |x| && hp + |x| <= |h|
    requires forall q :: |x| - k <= q < |x| ==> x[q] != h[hp + |x| - 1]
    requires hp <= at < hp + k
    ensures !Match(h, x, at)
  {
    var q := hp + |x| - 1 - at;
    assert x[q] != h[hp + |x| - 1];
    assert hp + |x| - 1 == at + q;
  }

  lemma MatchedByte(h: seq<Byte>, x: seq<Byte>, at: nat, k: nat)
    requires k < |x| && at + k < |h|
    ensures Match(h, x, at) ==> x[k] == h[at + k]
  {
  }

  /** The needle has period `p` and the window already matches on `|x| - p` bytes. */
  lemma SkipByMemory(h: seq<Byte>, x: seq<Byte>, hp: nat, p: nat, at: int)
    requires PeriodFrom(x, 0, p) && hp + |x| <= |h|
    requires forall i, j :: 0 <= i < |x| - p && j == hp + i ==> x[i] == h[j]
    requires x[|x| - 1] != h[hp + |x| - 1]
    requires hp < at < hp + (|x| - p)
    ensures !Match(h, x, at)
  {
    var l, d := |x|, at - hp;
    var c := l - 1 - p - d;
    assert x[c] == x[c + p];
    assert x[l - 1 - p] == x[l - 1];
    assert x[l - 1 - p] == h[hp + (l - 1 - p)];
    MatchedByte(h, x, at, c);
    MatchedByte(h, x, at, c + p);
  }

  /** A match that overlaps the matched part of the right half repeats the needle at `s`. */
  lemma MatchGivesRepetition(h: seq<Byte>, x: seq<Byte>, hp: nat, s: nat, e: nat, at: int)
    requires s <= e <= |x| && hp + |x| <= |h|
    requires forall i, j :: s <= i < e && j == hp + i ==> x[i] == h[j]
    requires hp < at && Match(h, x, at)
    requires at - hp <= e - s || e == |x|
    ensures LocalRepetition(x, s, at - hp)
  {
    var d := at - hp;
    forall i, j | 0 <= i && s - d <= i < s && j == i + d && j < |x| ensures x[i] == x[j] {
      assert x[i] == h[at + i];
      assert x[j] == h[hp + j];
    }
  }

  /** The right half of the window first differs at offset `k`. */
  lemma SkipByRightHalf(h: seq<Byte>, x: seq<Byte>, hp: nat, s: nat, k: nat, at: int)
    requires Critical(x, s) && s <= k < |x| && hp + |x| <= |h|
    requires forall i, j :: s <= i < k && j == hp + i ==> x[i] == h[j]
    requires x[k] != h[hp + k]
    requires hp <= at < hp + (k - s + 1)
    ensures !Match(h, x, at)
  {
    var d := at - hp;
    MatchedByte(h, x, at, k - d);
    if 0 < d && Match(h, x, at) {
      MatchGivesRepetition(h, x, hp, s, k, at);
    }
  }

  /** The right half of the window matches, so a match lies at least a repetition ahead. */
  lemma SkipByPeriod(h: seq<Byte>, x: seq<Byte>, hp: nat, s: nat, p: nat, shift: nat, at: int)
    requires Critical(x, s) && MinPeriodFrom(x, s, p) && hp + |x| <= |h|
    requires forall i, j :: s <= i < |x| && j == hp + i ==> x[i] == h[j]
    requires if PeriodFrom(x, 0, p) then shift == p else shift <= s || shift <= |x| - s + 1
    requires hp < at < hp + shift
    ensures !Match(h, x, at)
  {
    if Match(h, x, at) {
      var d := at - hp;
      MatchGivesRepetition(h, x, hp, s, |x|, at);
      if PeriodFrom(x, 0, p) {
        RepetitionAtLeastPeriod(x, s, p, d);
      } else {
        AperiodicRepetition(x, s, p, d);
      }
    }
  }

  // ---------------------------------------------------------------- the steps of the search

  /** `memchr(h + z, 0, grow)`: never reads past the terminator. */
  method FindNul(h: seq<Byte>, z: nat, grow: nat) returns (found: bool, e: nat)
    requires CString(h) && z < |h|
    ensures found ==> e == |h| - 1
    ensures !found ==> e == z + grow < |h|
  {
    var i, n := z, grow;
    while n != 0 && h[i] != 0
      invariant z <= i < |h| && i + n == z + grow
    {
      i, n := i + 1, n - 1;
    }
    return n != 0, i;
  }

  /** `memcmp(n, n + p, m) == 0` */
  method SamePrefix(n: seq<Byte>, p: nat, m: nat) returns (same: bool)
    requires p + m <= |n|
    ensures same <==> forall i, j :: 0 <= i < m && j == i + p ==> n[i] == n[j]
  {
    var i := 0;
    while i < m && n[i] == n[i + p]
      invariant 0 <= i <= m
      invariant forall u, v :: 0 <= u < i && v == u + p ==> n[u] == n[v]
    {
      i := i + 1;
    }
    return i == m;
  }

  /**
   The critical position, the shift after a full match of the right half, and how much
   of the window is known to match after that shift. `per` is the minimal period of the
   right half.
   */
  method Factorize(n: seq<Byte>, l: nat) returns (ms: int, p: nat, mem0: nat, ghost per: nat)
    requires CString(n) && l == |n| - 1 && 1 <= l
    ensures Factorized(n[..l], ms, p, mem0, per)
  {
    ghost var x: seq<Byte> := n[..l];
    var p0, ip;
    ms, p0 := MaximalSuffix.Compute(n, l, false);
    ip, p := MaximalSuffix.Compute(n, l, true);
    if ip + 1 > ms + 1 {
      CriticalFactorization(x, ip + 1, ms + 1, true);
      ms := ip;
    } else {
      CriticalFactorization(x, ms + 1, ip + 1, false);
      p := p0;
    }
    per := p;
    var periodic := SamePrefix(n, p, ms + 1);
    PeriodCarriesOver(n, l, ms + 1, p);
    if !periodic {
      mem0 := 0;
      p := (if ms > l - ms - 1 then ms else l - ms - 1) + 1;
    } else {
      mem0 := l - p;
    }
  }

  /** The period of the right half is one of the needle just when it carries over the left half. */
  lemma PeriodCarriesOver(n: seq<Byte>, l: nat, s: nat, p: nat)
    requires l <= |n| && Critical(n[..l], s) && PeriodFrom(n[..l], s, p)
    ensures PeriodFrom(n[..l], 0, p) <==> forall i, j :: 0 <= i < s && j == i + p ==> n[i] == n[j]
    ensures PeriodFrom(n[..l], 0, p) ==> s < p
  {
    var x: seq<int> := n[..l];
    if PeriodFrom(x, 0, p) {
      assert LocalRepetition(x, s, p);
      forall i, j | 0 <= i < s && j == i + p ensures n[i] == n[j] {
        assert x[i] == x[j];
      }
    }
  }

  /**
   Length of the needle, the set of its bytes, and one past the last index of each;
   stops early when the haystack is the shorter one.
   */
  method FillTables(h: seq<Byte>, from: nat, n: seq<Byte>, byteset: array<bool>, shift: array<nat>) returns (l: nat)
    requires CString(h) && CString(n) && from < |h|
    requires byteset.Length == 256 && shift.Length == 256
    requires forall b :: 0 <= b < 256 ==> !byteset[b]
    modifies byteset, shift
    ensures l < |n| && from + l < |h|
    ensures n[l] != 0 ==> from + l == |h| - 1
    ensures Tables(n[..l], byteset[..], shift[..])
  {
    l := 0;
    while n[l] != 0 && h[from + l] != 0
      invariant l < |n| && from + l < |h|
      invariant Tables(n[..l], byteset[..], shift[..])
      decreases |n| - l
    {
      byteset[n[l]] := true;
      shift[n[l]] := l + 1;
      l := l + 1;
    }
  }

  ghost predicate Tables(x: seq<Byte>, byteset: seq<bool>, shift: seq<nat>) {
    && |byteset| == 256 && |shift| == 256
    && (forall b: Byte {:trigger byteset[b]} :: !byteset[b] ==> b !in x)
    && (forall b: Byte {:trigger shift[b]} :: byteset[b] ==>
          && 1 <= shift[b] <= |x| && x[shift[b] - 1] == b
          && forall q :: shift[b] <= q < |x| ==> x[q] != b)
  }

  /** First offset at or after `from` where needle and window differ, or the needle's length. */
  method CompareRight(h: seq<Byte>, n: seq<Byte>, hp: nat, from: nat) returns (k: nat)
    requires CString(n) && from < |n| && hp + |n| - 1 <= |h|
    ensures from <= k < |n|
    ensures forall i, j :: from <= i < k && j == hp + i ==> n[i] == h[j]
    ensures n[k] != 0 ==> k < |n| - 1 && n[k] != h[hp + k]
  {
    k := from;
    while n[k] != 0 && n[k] == h[hp + k]
      invariant from <= k < |n|
      invariant forall i, j :: from <= i < k && j == hp + i ==> n[i] == h[j]
      decreases |n| - k
    {
      k := k + 1;
    }
  }

  method CompareLeft(h: seq<Byte>, n: seq<Byte>, hp: nat, from: nat, mem: nat) returns (k: nat)
    requires from <= |n| && hp + from <= |h|
    ensures k <= from
    ensures forall i, j :: k <= i < from && j == hp + i ==> n[i] == h[j]
    ensures mem < k ==> n[k - 1] != h[hp + k - 1]
  {
    k := from;
    while k > mem && n[k - 1] == h[hp + k - 1]
      invariant k <= from
      invariant forall i, j :: k <= i < from && j == hp + i ==> n[i] == h[j]
    {
      k := k - 1;
    }
  }

  /** Shift on the last byte of the window, by at least what the window already matches. */
  lemma SkipLast(h: seq<Byte>, x: seq<Byte>, hp: nat, k: nat, p: nat, mem: nat)
    requires 1 <= k <= |x| && hp + |x| <= |h|
    requires forall q :: |x| - k <= q < |x| ==> x[q] != h[hp + |x| - 1]
    requires mem == 0 || (PeriodFrom(x, 0, p) && mem == |x| - p)
    requires forall i, j :: 0 <= i < mem && j == hp + i ==> x[i] == h[j]
    ensures forall at :: hp <= at < hp + k || hp <= at < hp + mem ==> !Match(h, x, at)
  {
    forall at | hp <= at < hp + k || hp <= at < hp + mem ensures !Match(h, x, at) {
      if at < hp + k {
        SkipByLastByte(h, x, hp, k, at);
      } else {
        SkipByMemory(h, x, hp, p, at);
      }
    }
  }

  /** What the search knows about the needle `x`. */
  ghost predicate Factorized(x: seq<Byte>, ms: int, p: nat, mem0: nat, per: nat) {
    && -1 <= ms < |x| && 1 <= p <= |x|
    && Critical(x, ms + 1) && MinPeriodFrom(x, ms + 1, per)
    && (PeriodFrom(x, 0, per) ==> p == per && mem0 == |x| - p && ms + 1 < p)
    && (!PeriodFrom(x, 0, per) ==> mem0 == 0 && (p <= ms + 1 || p <= |x| - ms))
  }

  /** The first `mem` bytes of the window at `hp` are known to match. */
  ghost predicate Remembered(h: seq<Byte>, x: seq<Byte>, hp: nat, p: nat, mem: nat) {
    && mem <= |x| && hp + mem <= |h|
    && (mem == 0 || (PeriodFrom(x, 0, p) && mem == |x| - p))
    && forall i, j :: 0 <= i < mem && j == hp + i ==> x[i] == h[j]
  }

  ghost predicate NoMatchIn(h: seq<Byte>, x: seq<Byte>, from: nat, to: nat) {
    forall at :: from <= at < to ==> !Match(h, x, at)
  }

  /** How far to shift because of the last byte of the window; zero when that byte matches. */
  method ShiftByLast(h: seq<Byte>, ghost x: seq<Byte>, l: nat, hp: nat, ghost p: nat, mem: nat,
                     byteset: array<bool>, shift: array<nat>)
    returns (step: nat)
    requires |x| == l >= 1 && hp + l < |h|
    requires Tables(x, byteset[..], shift[..]) && Remembered(h, x, hp, p, mem)
    ensures step <= l && NoMatchIn(h, x, hp, hp + step)
  {
    ghost var last := h[hp + l - 1];
    assert byteset[..][last] == byteset[last] && shift[..][last] == shift[last];
    if !byteset[h[hp + l - 1]] {
      SkipLast(h, x, hp, l, p, 0);
      return l;
    }
    step := l - shift[h[hp + l - 1]];
    if step != 0 {
      SkipLast(h, x, hp, step, p, mem);
      if step < mem {
        step := mem;
      }
    }
  }

  /** Compares the two halves: either the window matches, or the next `step` positions do not. */
  method CompareHalves(h: seq<Byte>, n: seq<Byte>, ghost x: seq<Byte>, hp: nat,
                       ms: int, p: nat, mem0: nat, ghost per: nat, mem: nat)
    returns (found: bool, step: nat, mem': nat)
    requires CString(n) && |x| == |n| - 1 && x == n[..|x|] && hp + |x| < |h|
    requires Factorized(x, ms, p, mem0, per) && Remembered(h, x, hp, p, mem)
    ensures found ==> Match(h, x, hp)
    ensures !found ==> 1 <= step <= |x| && NoMatchIn(h, x, hp, hp + step) && Remembered(h, x, hp + step, p, mem')
  {
    var k := CompareRight(h, n, hp, if ms + 1 < mem then mem else ms + 1);
    if n[k] != 0 {
      forall at | hp <= at < hp + (k - ms) ensures !Match(h, x, at) {
        SkipByRightHalf(h, x, hp, ms + 1, k, at);
      }
      return false, k - ms, 0;
    }
    k := CompareLeft(h, n, hp, ms + 1, mem);
    if k <= mem {
      return true, 0, 0;
    }
    MatchedByte(h, x, hp, k - 1);
    forall at | hp < at < hp + p ensures !Match(h, x, at) {
      SkipByPeriod(h, x, hp, ms + 1, per, p, at);
    }
    AfterPeriod(h, x, hp, ms + 1, per, p, mem0);
    return false, p, mem0;
  }

  /** After the shift by a period the matched right half becomes a matched prefix. */
  lemma AfterPeriod(h: seq<Byte>, x: seq<Byte>, hp: nat, s: nat, per: nat, p: nat, mem0: nat)
    requires Factorized(x, s - 1, p, mem0, per) && hp + |x| <= |h|
    requires forall i, j :: s <= i < |x| && j == hp + i ==> x[i] == h[j]
    ensures Remembered(h, x, hp + p, p, mem0)
  {
    forall i, j | 0 <= i < mem0 && j == hp + p + i ensures x[i] == h[j] {
      assert x[i] == x[i + p];
    }
  }

  /** Moves the incremental end-of-haystack pointer so that the window lies before it. */
  method ExtendEnd(h: seq<Byte>, z: nat, hp: nat, l: nat) returns (fits: bool, z': nat)
    requires CString(h) && hp <= z < |h|
    ensures hp <= z' < |h|
    ensures fits <==> hp + l < |h|
    ensures fits ==> hp + l <= z'
  {
    z' := z;
    if z - hp < l {
      var grow := l / 64 * 64 + 63; // l | 63
      var found, e := FindNul(h, z, grow);
      z' := e;
      if found && z' - hp < l {
        return false, z';
      }
    }
    return true, z';
  }

  /** The first occurrence of the needle in the haystack at or after `from`. */
  method Search(h: seq<Byte>, from: nat, n: seq<Byte>) returns (r: Option<nat>)
    requires CString(h) && CString(n) && from < |h| && |n| >= 2
    ensures FirstMatch(h, n[..|n| - 1], from, r)
  {
    var byteset := new bool[256](_ => false);
    var shift := new nat[256];
    var l := FillTables(h, from, n, byteset, shift);
    if n[l] != 0 {
      return None;
    }
    ghost var x := n[..l];
    var ms, p, mem0;
    ghost var per;
    ms, p, mem0, per := Factorize(n, l);
    var mem, hp, z := 0, from, from;
    while true
      invariant Tables(x, byteset[..], shift[..])
      invariant from <= hp <= z < |h|
      invariant NoMatchIn(h, x, from, hp)
      invariant Remembered(h, x, hp, p, mem)
      decreases |h| - hp
    {
      var fits;
      fits, z := ExtendEnd(h, z, hp, l);
      if !fits {
        return None;
      }
      var step := ShiftByLast(h, x, l, hp, p, mem, byteset, shift);
      if step != 0 {
        hp, mem := hp + step, 0;
        continue;
      }
      var found;
      found, step, mem := CompareHalves(h, n, x, hp, ms, p, mem0, per, mem);
      if found {
        return Some(hp);
      }
      hp := hp + step;
    }
  }
}
