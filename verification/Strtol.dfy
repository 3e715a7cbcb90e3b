/**
 `strtol`, `strtoll`, `strtoul` and `strtoull` (64-bit `long`): the overflow test by cutoff
 against the unbounded value of the digits.
 */
module Strtol {
  import opened Arith
  import opened Common

  const LONG_MAX: int := 0x7fff_ffff_ffff_ffff
  const ULONG_MAX: int := 0xffff_ffff_ffff_ffff

  datatype Errno = Fine | Invalid | Range

  predicate IsSpace(c: int) { c == 32 || 9 <= c <= 13 }

  /** The digit a character stands for, or 36 if it is not a letter or a decimal digit. */
  function Digit(c: int): (d: int)
    ensures 0 <= d <= 36
  {
    if 48 <= c <= 57 then c - 48
    else if 65 <= c <= 90 then c - 55
    else if 97 <= c <= 122 then c - 87
    else 36
  }

  // ---------------------------------------------------------------- what the text means

  /** The index of the first character from `i` on that is not white space. */
  function SkipSpaces(s: seq<Byte>, i: nat): (j: nat)
    requires CString(s) && i < |s|
    ensures i <= j < |s| && !IsSpace(s[j])
    ensures forall k :: i <= k < j ==> IsSpace(s[k])
    decreases |s| - i
  {
    if IsSpace(s[i]) then SkipSpaces(s, i + 1) else i
  }

  predicate HasHexPrefix(s: seq<Byte>, i: nat, base: int)
    requires i < |s|
  {
    (base == 0 || base == 16) && s[i] == 48 && i + 1 < |s| && (s[i + 1] == 120 || s[i + 1] == 88)
  }

  /** Where the digits would begin, and in which base. */
  function Start(s: seq<Byte>, base: int): (r: (nat, int))
    requires CString(s) && ValidBase(base)
    ensures r.0 < |s| && 2 <= r.1 <= 36
  {
    var i := SkipSpaces(s, 0);
    var j := if s[i] == 45 || s[i] == 43 then i + 1 else i;
    if HasHexPrefix(s, j, base) then (j + 2, 16)
    else (j, if base != 0 then base else if s[j] == 48 then 8 else 10)
  }

  predicate Negative(s: seq<Byte>)
    requires CString(s)
  {
    s[SkipSpaces(s, 0)] == 45
  }

  predicate ValidBase(base: int) { base == 0 || 2 <= base <= 36 }

  /** The end of the run of digits that begins at `i`. */
  function RunEnd(s: seq<Byte>, i: nat, base: int): (j: nat)
    requires CString(s) && i < |s| && 2 <= base <= 36
    ensures i <= j < |s| && Digit(s[j]) >= base
    ensures forall k :: i <= k < j ==> Digit(s[k]) < base
    decreases |s| - i
  {
    if Digit(s[i]) < base then RunEnd(s, i + 1, base) else i
  }

  /** The unbounded value of a run of digits. */
  function Value(d: seq<Byte>, base: int): int {
    if d == [] then 0 else Value(d[..|d| - 1], base) * base + Digit(d[|d| - 1])
  }

  lemma {:induction false} ValueNotNegative(d: seq<Byte>, base: int)
    requires base >= 2
    ensures Value(d, base) >= 0
  {
    if d != [] {
      ValueNotNegative(d[..|d| - 1], base);
      MulAtMost(0, Value(d[..|d| - 1], base), base);
    }
  }

  /** More digits make no smaller number. */
  lemma {:induction false} ValueGrows(d: seq<Byte>, k: nat, base: int)
    requires base >= 2 && k <= |d|
    ensures Value(d[..k], base) <= Value(d, base)
  {
    if k == |d| {
      assert d[..k] == d;
    } else {
      ValueGrows(d[..|d| - 1], k, base);
      assert d[..|d| - 1][..k] == d[..k];
      ValueNotNegative(d[..|d| - 1], base);
      MulAtMost(1, base, Value(d[..|d| - 1], base));
    }
  }

  /** The cutoff test compares with the limit without computing a number above it. */
  lemma CutoffTest(acc: int, c: int, base: int, limit: int)
    requires base >= 2 && limit >= 0 && 0 <= c < base
    ensures acc > limit / base || (acc == limit / base && c > limit % base) <==> acc * base + c > limit
  {
    var q := limit / base;
    assert limit == q * base + limit % base;
    if acc > q {
      MulAtMost(q + 1, acc, base);
      MulDistributes(q, 1, base);
    } else if acc < q {
      MulAtMost(acc + 1, q, base);
      MulDistributes(acc, 1, base);
    }
  }

  // ---------------------------------------------------------------- the code

  /** The loop over the digits; `any` is 0 without digits and -1 after an overflow. */
  method Accumulate(s: seq<Byte>, from: nat, base: int, limit: int) returns (acc: int, any: int, end: nat)
    requires CString(s) && from < |s| && 2 <= base <= 36 && limit >= 0
    ensures end == RunEnd(s, from, base)
    ensures any == 0 <==> end == from
    ensures var v := Value(s[from..end], base);
      (any < 0 <==> v > limit) && (any >= 0 ==> acc == v)
  {
    var cutoff, cutlim := limit / base, limit % base;
    acc, any, end := 0, 0, from;
    while Digit(s[end]) < base
      invariant from <= end < |s| && RunEnd(s, from, base) == RunEnd(s, end, base)
      invariant any == 0 <==> end == from
      invariant any < 0 <==> Value(s[from..end], base) > limit
      invariant any >= 0 ==> acc == Value(s[from..end], base)
      decreases |s| - end
    {
      var c := Digit(s[end]);
      ghost var longer := s[from..end + 1];
      assert longer[..|longer| - 1] == s[from..end];
      if any < 0 || acc > cutoff || (acc == cutoff && c > cutlim) {
        ValueGrows(longer, |longer| - 1, base);
        if any >= 0 {
          CutoffTest(acc, c, base, limit);
        }
        any := -1;
      } else {
        CutoffTest(acc, c, base, limit);
        any := 1;
        acc := acc * base + c;
      }
      end := end + 1;
    }
  }

  /** White space, sign and prefix, as all four functions read them. */
  method ReadStart(s: seq<Byte>, base0: int) returns (neg: bool, i: nat, base: int)
    requires CString(s) && ValidBase(base0)
    ensures neg == Negative(s) && (i, base) == Start(s, base0)
  {
    i, base := 0, base0;
    while IsSpace(s[i])
      invariant i < |s| && SkipSpaces(s, i) == SkipSpaces(s, 0)
      decreases |s| - i
    {
      i := i + 1;
    }
    neg := s[i] == 45;
    if neg || s[i] == 43 {
      i := i + 1;
    }
    if (base == 0 || base == 16) && s[i] == 48 && (s[i + 1] == 120 || s[i + 1] == 88) {
      i, base := i + 2, 16;
    }
    if base == 0 {
      base := if s[i] == 48 then 8 else 10;
    }
  }

  /** The digits of the text. */
  function Run(s: seq<Byte>, base: int): seq<Byte>
    requires CString(s) && ValidBase(base)
  {
    s[Start(s, base).0..RunEnd(s, Start(s, base).0, Start(s, base).1)]
  }

  /** The number written in the text, sign and all. */
  function Number(s: seq<Byte>, base: int): int
    requires CString(s) && ValidBase(base)
  {
    var v := Value(Run(s, base), Start(s, base).1);
    if Negative(s) then -v else v
  }

  /** The index `endptr` gets: after the digits, or the start of the text without any. */
  function End(s: seq<Byte>, base: int): nat
    requires CString(s) && ValidBase(base)
  {
    if Run(s, base) == [] then 0 else RunEnd(s, Start(s, base).0, Start(s, base).1)
  }

  method Strtoll(s: seq<Byte>, base: int) returns (r: int, end: nat, errno: Errno)
    requires CString(s)
    ensures !ValidBase(base) ==> r == 0 && end == 0 && errno == Invalid
    ensures ValidBase(base) ==>
      && end == End(s, base)
      && (errno == Fine <==> -LONG_MAX - 1 <= Number(s, base) <= LONG_MAX)
      && (errno == Fine ==> r == Number(s, base))
      && (errno != Fine ==> errno == Range && r == if Number(s, base) < 0 then -LONG_MAX - 1 else LONG_MAX)
  {
    if base < 0 || base == 1 || base > 36 {
      return 0, 0, Invalid;
    }
    var neg, i, b := ReadStart(s, base);
    var limit := if neg then LONG_MAX + 1 else LONG_MAX;
    var acc, any, e := Accumulate(s, i, b, limit);
    ValueNotNegative(Run(s, base), b);
    end := if any != 0 then e else 0;
    if any < 0 {
      return if neg then -LONG_MAX - 1 else LONG_MAX, end, Range;
    }
    return if neg then -acc else acc, end, Fine;
  }

  /** A negative number comes back modulo 2^64. */
  method Strtoull(s: seq<Byte>, base: int) returns (r: int, end: nat, errno: Errno)
    requires CString(s)
    ensures !ValidBase(base) ==> r == 0 && end == 0 && errno == Invalid
    ensures ValidBase(base) ==>
      && end == End(s, base)
      && (errno == Fine <==> -ULONG_MAX <= Number(s, base) <= ULONG_MAX)
      && (errno == Fine ==> r == Number(s, base) % (ULONG_MAX + 1))
      && (errno != Fine ==> errno == Range && r == ULONG_MAX)
  {
    if base < 0 || base == 1 || base > 36 {
      return 0, 0, Invalid;
    }
    var neg, i, b := ReadStart(s, base);
    var acc, any, e := Accumulate(s, i, b, ULONG_MAX);
    ValueNotNegative(Run(s, base), b);
    end := if any != 0 then e else 0;
    if any < 0 {
      return ULONG_MAX, end, Range;
    }
    return if neg then (ULONG_MAX + 1 - acc) % (ULONG_MAX + 1) else acc, end, Fine;
  }
}
