/**
 Reading back what was printed: `strtoll` and `strtoull` on the text of an integer
 conversion, for every value, width, precision and set of flags.
 */
module PrintParse {
  import opened Arith
  import opened Common
  import opened PrintInteger
  import opened Strtol

  function Pow(b: nat, n: nat): (p: nat)
    requires b >= 1
    ensures p >= 1
  {
    if n == 0 then 1 else
      MulAtMost(1, Pow(b, n - 1), b);
      b * Pow(b, n - 1)
  }

  // ---------------------------------------------------------------- the value of the digits

  /** The value of digits written last one first. */
  function RevValue(d: seq<Byte>, base: int): int {
    if d == [] then 0 else Digit(d[0]) + base * RevValue(d[1..], base)
  }

  lemma {:induction false} ValueReversed(d: seq<Byte>, base: int)
    ensures Value(Reverse(d), base) == RevValue(d, base)
  {
    if d != [] {
      ValueReversed(d[1..], base);
      var r := Reverse(d);
      assert r[..|r| - 1] == Reverse(d[1..]) && r[|r| - 1] == d[0];
    }
  }

  /** Leading zeros do not count. */
  lemma {:induction false} ZerosDoNotCount(d: seq<Byte>, z: nat, base: int)
    ensures RevValue(d + Repeat(48, z), base) == RevValue(d, base)
    decreases |d|, z
  {
    var w := d + Repeat(48, z);
    if d != [] {
      ZerosDoNotCount(d[1..], z, base);
      assert w[1..] == d[1..] + Repeat(48, z);
    } else if z > 0 {
      ZerosDoNotCount([], z - 1, base);
      assert w[1..] == [] + Repeat(48, z - 1);
      assert d == [];
    }
  }

  lemma ModuloStep(v: nat, q: nat, r: nat, base: nat, p: nat)
    requires base >= 1 && p >= 1 && r < base && v == q * base + r
    ensures base * p >= 1 && v % (base * p) == base * (q % p) + r
  {
    var h, m := q / p, q % p;
    assert q == h * p + m;
    assert q * base == h * (base * p) + base * m;
    MulAtMost(m + 1, p, base);
    MulAtMost(1, p, base);
    assert base * m >= 0;
    DivModUnique(v, base * p, h, base * m + r);
  }

  /** The digits in the buffer are the value modulo what the buffer holds. */
  lemma {:induction false} DigitsValue(v: nat, base: nat, upper: bool, n: nat)
    requires IsBase(base)
    ensures RevValue(RevDigits(v, base, upper, n), base) == v % Pow(base, n)
    decreases v
  {
    if v == 0 {
      DivModUnique(0, Pow(base, n), 0, 0);
    } else if n > 0 {
      var d := RevDigits(v, base, upper, n);
      DigitsValue(Rest(v, base), base, upper, n - 1);
      assert d[1..] == RevDigits(Rest(v, base), base, upper, n - 1);
      assert Digit(d[0]) == Low(v, base);
      ModuloStep(v, Rest(v, base), Low(v, base), base, Pow(base, n - 1));
    }
  }

  lemma RestSmaller(v: nat, base: nat, p: nat)
    requires IsBase(base) && v < base * p
    ensures Rest(v, base) < p
  {
    if Rest(v, base) >= p {
      MulAtMost(p, Rest(v, base), base);
    }
  }

  /** Small values have few digits. */
  lemma {:induction false} DigitsLength(v: nat, base: nat, upper: bool, n: nat, k: nat)
    requires IsBase(base) && v < Pow(base, k)
    ensures |RevDigits(v, base, upper, n)| <= k
    decreases v
  {
    if v != 0 && n > 0 {
      RestSmaller(v, base, Pow(base, k - 1));
      DigitsLength(Rest(v, base), base, upper, n - 1, k - 1);
    }
  }

  lemma {:induction false} DigitsAreDigits(v: nat, base: nat, upper: bool, n: nat)
    requires IsBase(base)
    ensures forall k :: 0 <= k < |RevDigits(v, base, upper, n)| ==> Digit(RevDigits(v, base, upper, n)[k]) < base
    decreases v
  {
    if v != 0 && n > 0 {
      DigitsAreDigits(Rest(v, base), base, upper, n - 1);
    }
  }

  // ---------------------------------------------------------------- the text as strtoll reads it

  predicate IsSign(sign: seq<Byte>) {
    sign == [] || sign == [45] || sign == [43] || sign == [32]
  }

  ghost predicate AllDigits(d: seq<Byte>, base: int) {
    forall k :: 0 <= k < |d| ==> Digit(d[k]) < base
  }

  function Layout(a: nat, sign: seq<Byte>, d: seq<Byte>, b: nat): seq<Byte> {
    Repeat(32, a) + sign + d + Repeat(32, b) + [0]
  }

  /** The characters of a layout, one part after the other. */
  lemma LayoutChars(a: nat, front: seq<Byte>, d: seq<Byte>, b: nat, base: int)
    requires AllDigits(d, base) && base <= 36 && 0 !in front
    ensures var s := Layout(a, front, d, b);
      && CString(s) && |s| == a + |front| + |d| + b + 1
      && (forall k :: 0 <= k < a ==> s[k] == 32)
      && (forall k, i :: 0 <= i < |front| && k == a + i ==> s[k] == front[i])
      && (s[a + |front| + |d|] == 32 || s[a + |front| + |d|] == 0)
      && s[a + |front|..a + |front| + |d|] == d
  {
    var s := Layout(a, front, d, b);
    forall k | 0 <= k < |s| - 1
      ensures s[k] != 0
    {
      var i := k - a - |front|;
      assert 0 <= i < |d| ==> s[k] == d[i];
      assert a <= k < a + |front| ==> s[k] == front[k - a];
    }
  }

  lemma LayoutRun(a: nat, front: seq<Byte>, d: seq<Byte>, b: nat, base: int)
    requires AllDigits(d, base) && 2 <= base <= 36 && 0 !in front
    ensures CString(Layout(a, front, d, b))
    ensures RunEnd(Layout(a, front, d, b), a + |front|, base) == a + |front| + |d|
  {
    LayoutChars(a, front, d, b, base);
    RunIs(Layout(a, front, d, b), a + |front|, a + |front| + |d|, base);
  }

  lemma RunIs(s: seq<Byte>, from: nat, end: nat, base: int)
    requires CString(s) && from <= end < |s| && 2 <= base <= 36
    requires AllDigits(s[from..end], base) && Digit(s[end]) >= base
    ensures RunEnd(s, from, base) == end
  {
    forall k | from <= k < end
      ensures Digit(s[k]) < base
    {
      assert s[k] == s[from..end][k - from];
    }
  }

  lemma SkipIs(s: seq<Byte>, j: nat)
    requires CString(s) && j < |s| && !IsSpace(s[j]) && forall k :: 0 <= k < j ==> IsSpace(s[k])
    ensures SkipSpaces(s, 0) == j
  {
  }

  lemma LayoutStart(a: nat, sign: seq<Byte>, d: seq<Byte>, b: nat, base: int)
    requires IsSign(sign) && d != [] && AllDigits(d, base) && IsBase(base)
    requires CString(Layout(a, sign, d, b))
    ensures Start(Layout(a, sign, d, b), base) == (a + |sign|, base)
    ensures Negative(Layout(a, sign, d, b)) <==> sign == [45]
  {
    var s := Layout(a, sign, d, b);
    var at := a + |sign|;
    assert s[at] == d[0] && Digit(s[at]) < base;
    assert |d| > 1 ==> s[at + 1] == d[1] && Digit(s[at + 1]) < base;
    assert |d| == 1 ==> s[at + 1] == 32 || s[at + 1] == 0;
    assert sign != [] ==> s[a] == sign[0];
    assert forall k :: 0 <= k < a ==> s[k] == 32;
    SkipIs(s, if sign == [45] || sign == [43] then a else at);
  }

  lemma ReadLayout(a: nat, sign: seq<Byte>, d: seq<Byte>, b: nat, base: int)
    requires IsSign(sign) && d != [] && AllDigits(d, base) && IsBase(base)
    ensures CString(Layout(a, sign, d, b))
    ensures Run(Layout(a, sign, d, b), base) == d
    ensures Negative(Layout(a, sign, d, b)) <==> sign == [45]
    ensures Start(Layout(a, sign, d, b), base).1 == base
  {
    LayoutChars(a, sign, d, b, base);
    LayoutStart(a, sign, d, b, base);
    LayoutDigits(a, sign, d, b, base);
  }

  lemma LayoutDigits(a: nat, front: seq<Byte>, d: seq<Byte>, b: nat, base: int)
    requires AllDigits(d, base) && 2 <= base <= 36 && 0 !in front && CString(Layout(a, front, d, b))
    requires Start(Layout(a, front, d, b), base) == (a + |front|, base)
    ensures Run(Layout(a, front, d, b), base) == d
  {
    LayoutChars(a, front, d, b, base);
    LayoutRun(a, front, d, b, base);
    RunFrom(Layout(a, front, d, b), base, a + |front|, a + |front| + |d|);
  }

  lemma RunFrom(s: seq<Byte>, base: int, from: nat, end: nat)
    requires CString(s) && 2 <= base <= 36 && from <= end < |s|
    requires Start(s, base) == (from, base) && RunEnd(s, from, base) == end
    ensures Run(s, base) == s[from..end]
  {
  }

  /** Without digits there is nothing to read. */
  lemma ReadNothing(s: seq<Byte>, base: int)
    requires CString(s) && IsBase(base) && forall k :: 0 <= k < |s| ==> Digit(s[k]) == 36
    ensures Number(s, base) == 0
  {
    assert Run(s, base) == [];
  }

  // ---------------------------------------------------------------- round trip

  /** No alternate form and no pointer: as for `d`, `i`, `u`, and for `x`, `o`, `b` without `#`. */
  predicate Plain(flags: Flags) {
    !flags.hash && !flags.pointer
  }

  /** The digits with their leading zeros, the last one first. */
  function Body(v: nat, negative: bool, base: nat, precision: nat, width: nat, flags: Flags): seq<Byte> {
    Padded(Digits(v, base, flags).0, precision, NetWidth(negative, width, flags), flags)
  }

  /** The sign is printed only if the buffer has room for it. */
  function SignOf(body: seq<Byte>, negative: bool, flags: Flags): (sign: seq<Byte>)
    ensures IsSign(sign)
  {
    if |body| >= BUFFER_SIZE then []
    else if negative then [45] else if flags.plus then [43] else if flags.space then [32] else []
  }

  lemma BodyShape(v: nat, negative: bool, base: nat, precision: nat, width: nat, flags: Flags) returns (z: nat)
    ensures Body(v, negative, base, precision, width, flags) == Digits(v, base, flags).0 + Repeat(48, z)
  {
    var d := Digits(v, base, flags).0;
    var body := Body(v, negative, base, precision, width, flags);
    z := |body| - |d|;
    forall k | 0 <= k < |body|
      ensures body[k] == (d + Repeat(48, z))[k]
    {
    }
  }

  lemma ReversePushed(body: seq<Byte>, c: Byte)
    ensures Reverse(body + [c]) == [c] + Reverse(body)
  {
    var x, y := Reverse(body + [c]), [c] + Reverse(body);
    forall k | 0 <= k < |x|
      ensures x[k] == y[k]
    {
      assert x[k] == (body + [c])[|body| - k];
    }
  }

  lemma SignedReversed(body: seq<Byte>, negative: bool, flags: Flags)
    requires |body| <= BUFFER_SIZE
    ensures Reverse(Signed(body, negative, flags)) == SignOf(body, negative, flags) + Reverse(body)
  {
    ReversePushed(body, 45);
    ReversePushed(body, 43);
    ReversePushed(body, 32);
  }

  lemma TextLayout(v: nat, negative: bool, base: nat, precision: nat, width: nat, flags: Flags) returns (a: nat, b: nat)
    requires Plain(flags)
    ensures var body := Body(v, negative, base, precision, width, flags);
      Text(v, negative, base, precision, width, flags) + [0]
        == Layout(a, SignOf(body, negative, flags), Reverse(body), b)
  {
    var body := Body(v, negative, base, precision, width, flags);
    var net := NetWidth(negative, width, flags);
    PlainText(v, negative, base, precision, width, flags);
    SignedReversed(body, negative, flags);
    a, b := JustifiedLayout(SignOf(body, negative, flags), Reverse(body), net, flags);
  }

  lemma PlainText(v: nat, negative: bool, base: nat, precision: nat, width: nat, flags: Flags)
    requires Plain(flags)
    ensures var body := Body(v, negative, base, precision, width, flags);
      Text(v, negative, base, precision, width, flags)
        == Justified(Reverse(Signed(body, negative, flags)), NetWidth(negative, width, flags), flags)
  {
    assert Digits(v, base, flags).1 == flags;
  }

  lemma JustifiedLayout(sign: seq<Byte>, d: seq<Byte>, net: nat, flags: Flags) returns (a: nat, b: nat)
    ensures Justified(sign + d, net, flags) + [0] == Layout(a, sign, d, b)
  {
    var room := if net > |sign + d| then net - |sign + d| else 0;
    a, b := 0, 0;
    if flags.left {
      b := room;
    } else if !flags.zeropad {
      a := room;
    }
    assert Repeat(32, net - |sign + d|) == Repeat(32, room);
  }

  lemma BodyIsDigits(v: nat, negative: bool, base: nat, precision: nat, width: nat, flags: Flags)
    requires IsBase(base)
    ensures AllDigits(Reverse(Body(v, negative, base, precision, width, flags)), base)
  {
    var z := BodyShape(v, negative, base, precision, width, flags);
    DigitsAreDigits(v, base, flags.uppercase, BUFFER_SIZE);
    var d := Digits(v, base, flags).0;
    assert AllDigits(d, base);
    assert AllDigits(d + Repeat(48, z), base);
  }

  lemma BufferedValue(v: nat, base: nat, flags: Flags)
    requires IsBase(base)
    ensures RevValue(Digits(v, base, flags).0, base) == v % Pow(base, BUFFER_SIZE)
  {
    DigitsValue(v, base, flags.uppercase, BUFFER_SIZE);
    if v == 0 {
      ZeroDigit(base);
    }
  }

  lemma ZeroDigit(base: int)
    ensures RevValue([48], base) == 0
  {
    assert RevValue([48], base) == base * RevValue([48][1..], base) == 0;
  }

  lemma BodyValue(v: nat, negative: bool, base: nat, precision: nat, width: nat, flags: Flags)
    requires IsBase(base)
    ensures RevValue(Body(v, negative, base, precision, width, flags), base) == v % Pow(base, BUFFER_SIZE)
  {
    var z := BodyShape(v, negative, base, precision, width, flags);
    ZerosDoNotCount(Digits(v, base, flags).0, z, base);
    BufferedValue(v, base, flags);
  }

  /** The number in a layout. */
  lemma {:induction false} LayoutNumber(a: nat, sign: seq<Byte>, body: seq<Byte>, b: nat, base: int)
    requires IsSign(sign) && AllDigits(Reverse(body), base) && IsBase(base)
    ensures var s := Layout(a, sign, Reverse(body), b);
      CString(s) && Number(s, base) == if sign == [45] then -RevValue(body, base) else RevValue(body, base)
  {
    LayoutChars(a, sign, Reverse(body), b, base);
    if body == [] {
      ReadNothing(Layout(a, sign, Reverse(body), b), base);
    } else {
      ReadLayout(a, sign, Reverse(body), b, base);
      ValueReversed(body, base);
    }
  }

  /** What comes back: the value modulo what 32 digits hold, with the sign if it was printed. */
  lemma PrintedNumber(v: nat, negative: bool, base: nat, precision: nat, width: nat, flags: Flags)
    requires Plain(flags) && IsBase(base)
    ensures var s := Text(v, negative, base, precision, width, flags) + [0];
      var m := v % Pow(base, BUFFER_SIZE);
      && CString(s)
      && Number(s, base) ==
           if negative && |Body(v, negative, base, precision, width, flags)| < BUFFER_SIZE then -m else m
  {
    var body := Body(v, negative, base, precision, width, flags);
    var a, b := TextLayout(v, negative, base, precision, width, flags);
    BodyIsDigits(v, negative, base, precision, width, flags);
    BodyValue(v, negative, base, precision, width, flags);
    LayoutNumber(a, SignOf(body, negative, flags), body, b, base);
  }

  // ---------------------------------------------------------------- per conversion

  lemma {:induction false} PowSum(b: nat, m: nat, n: nat)
    requires b >= 1
    ensures Pow(b, m + n) == Pow(b, m) * Pow(b, n)
  {
    if m > 0 {
      PowSum(b, m - 1, n);
      MulAssoc(b, Pow(b, m - 1), Pow(b, n));
    }
  }

  lemma Powers2()
    ensures Pow(2, 4) == 16 && Pow(2, 16) == 0x1_0000 && Pow(2, 32) == 0x1_0000_0000
  {
    assert Pow(2, 2) == 4;
    PowSum(2, 2, 2);
    PowSum(2, 4, 4);
    PowSum(2, 8, 8);
    PowSum(2, 16, 16);
  }

  lemma Powers8()
    ensures Pow(8, 22) > ULONG_MAX
  {
    assert Pow(8, 2) == 64;
    PowSum(8, 2, 2);
    PowSum(8, 4, 4);
    PowSum(8, 8, 8);
    PowSum(8, 4, 2);
    PowSum(8, 16, 6);
  }

  lemma Powers10()
    ensures Pow(10, 20) > ULONG_MAX
  {
    assert Pow(10, 2) == 100;
    PowSum(10, 2, 2);
    PowSum(10, 4, 4);
    PowSum(10, 8, 8);
    PowSum(10, 16, 4);
  }

  lemma Powers16()
    ensures Pow(16, 16) > ULONG_MAX
  {
    assert Pow(16, 2) == 256;
    PowSum(16, 2, 2);
    PowSum(16, 4, 4);
    PowSum(16, 8, 8);
  }

  /** How many digits a 64-bit number can need. */
  function MaxDigits(base: nat): nat {
    if base == 10 then 20 else if base == 8 then 22 else 16
  }

  lemma PowerBounds(base: nat)
    requires base == 8 || base == 10 || base == 16
    ensures Pow(base, MaxDigits(base)) > ULONG_MAX && Pow(base, BUFFER_SIZE) > ULONG_MAX
  {
    Powers8();
    Powers10();
    Powers16();
    PowMonotone(base, MaxDigits(base), BUFFER_SIZE);
  }

  lemma ModSmall(v: int, p: int)
    requires v >= 0 && p > 0
    ensures v % p == v <==> v < p
  {
    if v < p {
      DivModUnique(v, p, 0, v);
    }
  }

  lemma {:induction false} PowMonotone(b: nat, m: nat, n: nat)
    requires b >= 1 && m <= n
    ensures Pow(b, m) <= Pow(b, n)
  {
    if m < n {
      PowMonotone(b, m, n - 1);
      MulAtMost(1, b, Pow(b, n - 1));
    }
  }

  /** How long the digits get with their zeros, in terms of what the caller wrote. */
  lemma SignFits(v: nat, negative: bool, base: nat, precision: nat, width: nat, flags: Flags)
    requires IsBase(base) && base != 2 && v <= ULONG_MAX
    ensures |Body(v, negative, base, precision, width, flags)| >= BUFFER_SIZE <==>
      precision >= BUFFER_SIZE || (flags.zeropad && !flags.left && NetWidth(negative, width, flags) >= BUFFER_SIZE)
  {
    PowerBounds(base);
    DigitsLength(v, base, flags.uppercase, BUFFER_SIZE, MaxDigits(base));
  }

  /**
   `%lld` and `strtoll` are inverse to each other, unless the number is negative and 32 or
   more digits are asked for: then the sign is not printed.
   */
  lemma SignedDecimalRoundTrip(v: int, precision: nat, width: nat, flags: Flags)
    requires -LONG_MAX - 1 <= v <= LONG_MAX && Plain(flags)
    ensures var s := Text(if v < 0 then -v else v, v < 0, 10, precision, width, flags) + [0];
      && CString(s)
      && (Number(s, 10) == v <==> !(v < 0 && Wide(precision, width, flags)))
  {
    var m := if v < 0 then -v else v;
    PrintedNumber(m, v < 0, 10, precision, width, flags);
    SignFits(m, v < 0, 10, precision, width, flags);
    PowerBounds(10);
    ModSmall(m, Pow(10, BUFFER_SIZE));
  }

  /** Unsigned octal, decimal and hexadecimal numbers always come back. */
  lemma UnsignedRoundTrip(v: nat, base: nat, precision: nat, width: nat, flags: Flags)
    requires v <= ULONG_MAX && Plain(flags) && (base == 8 || base == 10 || base == 16)
    ensures var s := Text(v, false, base, precision, width, flags) + [0];
      CString(s) && Number(s, base) == v
  {
    PrintedNumber(v, false, base, precision, width, flags);
    PowerBounds(base);
    ModSmall(v, Pow(base, BUFFER_SIZE));
  }

  /** Binary numbers come back just when they fit 32 bits: the buffer holds no more digits. */
  lemma BinaryRoundTrip(v: nat, precision: nat, width: nat, flags: Flags)
    requires v <= ULONG_MAX && Plain(flags)
    ensures var s := Text(v, false, 2, precision, width, flags) + [0];
      CString(s) && (Number(s, 2) == v <==> v < 0x1_0000_0000)
  {
    PrintedNumber(v, false, 2, precision, width, flags);
    Powers2();
    ModSmall(v, Pow(2, BUFFER_SIZE));
  }

  /** `%.32lld` of -5 reads back as 5. */
  lemma SignLost(v: nat, precision: nat, flags: Flags)
    requires v == 5 && precision == 32 && Plain(flags)
    ensures var s := Text(v, true, 10, precision, 0, flags) + [0];
      CString(s) && Number(s, 10) == 5
  {
    PrintedNumber(v, true, 10, precision, 0, flags);
    SignFits(v, true, 10, precision, 0, flags);
    PowerBounds(10);
    ModSmall(v, Pow(10, BUFFER_SIZE));
  }

  /** `%llb` of 2^32 reads back as 0. */
  lemma HighDigitsLost(v: nat, precision: nat, width: nat, flags: Flags)
    requires v == 0x1_0000_0000 && Plain(flags)
    ensures var s := Text(v, false, 2, precision, width, flags) + [0];
      CString(s) && Number(s, 2) == 0
  {
    PrintedNumber(v, false, 2, precision, width, flags);
    Powers2();
    DivModUnique(v, Pow(2, BUFFER_SIZE), 1, 0);
  }

  // ---------------------------------------------------------------- prefixes

  function Mark(base: nat, flags: Flags): Byte { if base == 2 then 98 else if flags.uppercase then 88 else 120 }

  /** As much of the prefix as the buffer has room for. */
  function PrefixOf(body: seq<Byte>, base: nat, flags: Flags): seq<Byte> {
    if |body| >= BUFFER_SIZE then []
    else if base != 16 && base != 2 then [48]
    else if |body| == BUFFER_SIZE - 1 then [Mark(base, flags)]
    else [48, Mark(base, flags)]
  }

  lemma PrefixedReversed(body: seq<Byte>, base: nat, flags: Flags)
    requires |body| <= BUFFER_SIZE
    ensures Reverse(Prefixed(body, base, flags)) == PrefixOf(body, base, flags) + Reverse(body)
  {
    var mark := Mark(base, flags);
    if |body| >= BUFFER_SIZE {
      assert Prefixed(body, base, flags) == body;
    } else if base != 16 && base != 2 {
      assert Prefixed(body, base, flags) == body + [48];
      ReversePushed(body, 48);
    } else if |body| == BUFFER_SIZE - 1 {
      assert Prefixed(body, base, flags) == body + [mark];
      ReversePushed(body, mark);
    } else {
      assert Prefixed(body, base, flags) == body + [mark] + [48];
      ReversePushed(body, mark);
      ReversePushed(body + [mark], 48);
      assert [48] + ([mark] + Reverse(body)) == [48, mark] + Reverse(body);
    }
  }

  /** The digits and zeros that are left when room has been made for the prefix. */
  function Kept(v: nat, base: nat, precision: nat, width: nat, flags: Flags): seq<Byte> {
    var net := NetWidth(false, width, flags);
    TakeBack(Body(v, false, base, precision, width, flags), |Digits(v, base, flags).0|, base, precision, net, flags)
  }

  /** Taking back padding leaves the digits of the value alone. */
  lemma KeptShape(v: nat, base: nat, precision: nat, width: nat, flags: Flags) returns (z: nat)
    ensures Kept(v, base, precision, width, flags) == Digits(v, base, flags).0 + Repeat(48, z)
    ensures |Digits(v, base, flags).0| <= |Kept(v, base, precision, width, flags)| <= BUFFER_SIZE
  {
    var d := Digits(v, base, flags).0;
    var body := Body(v, false, base, precision, width, flags);
    var kept := Kept(v, base, precision, width, flags);
    var y := BodyShape(v, false, base, precision, width, flags);
    z := |kept| - |d|;
    assert kept == body[..|kept|];
  }

  lemma KeptDigits(v: nat, base: nat, precision: nat, width: nat, flags: Flags)
    requires IsBase(base)
    ensures AllDigits(Reverse(Kept(v, base, precision, width, flags)), base)
  {
    var d := Digits(v, base, flags).0;
    var z := KeptShape(v, base, precision, width, flags);
    DigitsAreDigits(v, base, flags.uppercase, BUFFER_SIZE);
    assert AllDigits(d, base);
    assert AllDigits(d + Repeat(48, z), base);
  }

  lemma KeptValue(v: nat, base: nat, precision: nat, width: nat, flags: Flags)
    requires IsBase(base)
    ensures RevValue(Kept(v, base, precision, width, flags), base) == v % Pow(base, BUFFER_SIZE)
  {
    var z := KeptShape(v, base, precision, width, flags);
    ZerosDoNotCount(Digits(v, base, flags).0, z, base);
    BufferedValue(v, base, flags);
  }

  /** The prefix is printed: it was asked for and has not been dropped for zero or for padded octal. */
  predicate HasPrefix(v: nat, base: nat, precision: nat, width: nat, flags: Flags) {
    var f := Digits(v, base, flags).1;
    var body := Body(v, false, base, precision, width, flags);
    f.pointer || (f.hash && !(base == 8 && |body| > |Digits(v, base, flags).0|))
  }

  /** What stands before the digits: the sign, if it has room, and the prefix. */
  function Front(kept: seq<Byte>, base: nat, flags: Flags): seq<Byte> {
    SignOf(Prefixed(kept, base, flags), false, flags) + PrefixOf(kept, base, flags)
  }

  lemma FrontUnsigned(kept: seq<Byte>, base: nat, flags: Flags)
    requires !flags.plus && !flags.space
    ensures Front(kept, base, flags) == PrefixOf(kept, base, flags)
  {
    var sign := SignOf(Prefixed(kept, base, flags), false, flags);
    assert sign == [];
  }

  lemma Regroup(a: seq<Byte>, b: seq<Byte>, c: seq<Byte>)
    ensures a + (b + c) == a + b + c
  {
  }

  lemma {:induction false} PrefixText(v: nat, base: nat, precision: nat, width: nat, flags: Flags)
    returns (a: nat, b: nat)
    requires HasPrefix(v, base, precision, width, flags)
    ensures var kept := Kept(v, base, precision, width, flags);
      Text(v, false, base, precision, width, flags) + [0] == Layout(a, Front(kept, base, flags), Reverse(kept), b)
  {
    var kept := Kept(v, base, precision, width, flags);
    var prefixed := Prefixed(kept, base, flags);
    var net := NetWidth(false, width, flags);
    var z := KeptShape(v, base, precision, width, flags);
    SignedReversed(prefixed, false, flags);
    PrefixedReversed(kept, base, flags);
    var front := Front(kept, base, flags);
    Regroup(SignOf(prefixed, false, flags), PrefixOf(kept, base, flags), Reverse(kept));
    PrefixTextShape(v, base, precision, width, flags);
    a, b := JustifiedLayout(front, Reverse(kept), net, flags);
  }

  /** Flags other than these do not change how a buffer is justified. */
  lemma SameJustified(buf: seq<Byte>, width: nat, f: Flags, g: Flags)
    requires f.left == g.left && f.zeropad == g.zeropad && f.plus == g.plus && f.space == g.space
    ensures Justified(Reverse(Signed(buf, false, f)), NetWidth(false, width, f), f)
         == Justified(Reverse(Signed(buf, false, g)), NetWidth(false, width, g), g)
  {
    assert Signed(buf, false, f) == Signed(buf, false, g);
  }

  lemma PrefixFinalized(v: nat, base: nat, precision: nat, width: nat, flags: Flags)
    requires HasPrefix(v, base, precision, width, flags)
    ensures var d, f := Digits(v, base, flags).0, Digits(v, base, flags).1;
      var prefixed := Prefixed(Kept(v, base, precision, width, flags), base, flags);
      Finalized(d, false, base, precision, NetWidth(false, width, f), f) == Signed(prefixed, false, f)
  {
    var d, f := Digits(v, base, flags).0, Digits(v, base, flags).1;
    var net := NetWidth(false, width, f);
    var body := Body(v, false, base, precision, width, flags);
    assert Padded(d, precision, net, f) == body;
    assert TakeBack(body, |d|, base, precision, net, f) == Kept(v, base, precision, width, flags);
  }

  lemma PrefixTextShape(v: nat, base: nat, precision: nat, width: nat, flags: Flags)
    requires HasPrefix(v, base, precision, width, flags)
    ensures var prefixed := Prefixed(Kept(v, base, precision, width, flags), base, flags);
      Text(v, false, base, precision, width, flags)
        == Justified(Reverse(Signed(prefixed, false, flags)), NetWidth(false, width, flags), flags)
  {
    var f := Digits(v, base, flags).1;
    var prefixed := Prefixed(Kept(v, base, precision, width, flags), base, flags);
    PrefixFinalized(v, base, precision, width, flags);
    SameJustified(prefixed, width, f, flags);
  }

  /** Without a prefix the text is the digits with their zeros and the sign. */
  lemma NoPrefixShape(v: nat, base: nat, precision: nat, width: nat, flags: Flags)
    requires !HasPrefix(v, base, precision, width, flags)
    ensures Text(v, false, base, precision, width, flags)
         == Justified(Reverse(Signed(Body(v, false, base, precision, width, flags), false, flags)),
                      NetWidth(false, width, flags), flags)
  {
    var d, f := Digits(v, base, flags).0, Digits(v, base, flags).1;
    var net := NetWidth(false, width, f);
    var body := Body(v, false, base, precision, width, flags);
    assert Padded(d, precision, net, f) == body;
    assert Finalized(d, false, base, precision, net, f) == Signed(body, false, f);
    SameJustified(body, width, f, flags);
  }

  /** So it is the text of the conversion without `#`. */
  lemma DroppedPrefix(v: nat, base: nat, precision: nat, width: nat, flags: Flags)
    requires !HasPrefix(v, base, precision, width, flags)
    ensures Text(v, false, base, precision, width, flags)
         == Text(v, false, base, precision, width, flags.(hash := false))
  {
    var plain := flags.(hash := false);
    NoPrefixShape(v, base, precision, width, flags);
    NoPrefixShape(v, base, precision, width, plain);
    var body := Body(v, false, base, precision, width, flags);
    assert body == Body(v, false, base, precision, width, plain);
    SameJustified(body, width, flags, plain);
  }

  // ---------------------------------------------------------------- reading prefixes

  /** A hexadecimal text that starts with the letter of the prefix is no number, nor is a binary one. */
  lemma ReadBareMark(a: nat, mark: Byte, d: seq<Byte>, b: nat, base: int)
    requires IsBase(base) && Digit(mark) >= base && mark != 0 && !IsSpace(mark) && mark != 45 && mark != 43
    requires AllDigits(d, base)
    ensures var s := Layout(a, [mark], d, b);
      CString(s) && Number(s, base) == 0
  {
    var s := Layout(a, [mark], d, b);
    LayoutChars(a, [mark], d, b, base);
    assert s[a] == mark;
    SkipIs(s, a);
    assert Digit(48) == 0;
    assert Start(s, base) == (a, base);
    assert RunEnd(s, a, base) == a;
  }

  predicate IsPlusSign(sign: seq<Byte>) {
    sign == [] || sign == [43] || sign == [32]
  }

  /** The prefix is read and skipped in base 16. */
  lemma {:induction false} ReadHexPrefix(a: nat, sign: seq<Byte>, mark: Byte, d: seq<Byte>, b: nat)
    requires IsPlusSign(sign) && (mark == 120 || mark == 88) && AllDigits(d, 16)
    ensures var s := Layout(a, sign + [48, mark], d, b);
      CString(s) && Number(s, 16) == Value(d, 16)
  {
    var front := sign + [48, mark];
    var s := Layout(a, front, d, b);
    LayoutChars(a, front, d, b, 16);
    var at := a + |sign|;
    assert s[at] == front[|sign|] && s[at + 1] == front[|sign| + 1];
    assert sign != [] ==> s[a] == sign[0];
    SkipIs(s, if sign == [43] then a else at);
    assert Start(s, 16) == (a + |front|, 16);
    LayoutDigits(a, front, d, b, 16);
  }

  /** Of a binary prefix only the zero is read. */
  lemma ReadBinaryPrefix(a: nat, d: seq<Byte>, b: nat)
    requires AllDigits(d, 2)
    ensures var s := Layout(a, [48, 98], d, b);
      CString(s) && Number(s, 2) == 0
  {
    var front: seq<Byte> := [48, 98];
    var s := Layout(a, front, d, b);
    LayoutChars(a, front, d, b, 2);
    assert s[a] == front[0] && s[a + 1] == front[1];
    SkipIs(s, a);
    assert Start(s, 2) == (a, 2);
    assert s[a..a + 1] == [48];
    RunIs(s, a, a + 1, 2);
    assert Run(s, 2) == [48];
    assert Value([48], 2) == Value([48][..0], 2) * 2 + 0 == 0;
  }

  // ---------------------------------------------------------------- alternate forms come back, or not

  /**
   What the format loop passes on for `x`, `o` and `b`: no sign, and no zero flag next to a
   precision.
   */
  predicate UnsignedFlags(precision: nat, flags: Flags) {
    && !flags.pointer && !flags.plus && !flags.space
    && (if flags.precision then !flags.zeropad else precision == 0)
  }

  /** What it passes on for `p`. */
  predicate PointerFlags(precision: nat, width: nat, flags: Flags) {
    && flags.pointer && flags.zeropad && width == 18
    && (!flags.precision ==> precision == 0)
  }

  /** `%o`, with or without `#`, always comes back. */
  lemma OctalRoundTrip(v: nat, precision: nat, width: nat, flags: Flags)
    requires v <= ULONG_MAX && UnsignedFlags(precision, flags)
    ensures var s := Text(v, false, 8, precision, width, flags) + [0];
      CString(s) && Number(s, 8) == v
  {
    if HasPrefix(v, 8, precision, width, flags) {
      var kept := Kept(v, 8, precision, width, flags);
      var a, b := PrefixText(v, 8, precision, width, flags);
      KeptDigits(v, 8, precision, width, flags);
      KeptValue(v, 8, precision, width, flags);
      PowerBounds(8);
      ModSmall(v, Pow(8, BUFFER_SIZE));
      FrontUnsigned(kept, 8, flags);
      if |kept| >= BUFFER_SIZE {
        LayoutNumber(a, [], kept, b, 8);
      } else {
        LeadingZero(a, kept, b);
      }
    } else {
      DroppedPrefix(v, 8, precision, width, flags);
      UnsignedRoundTrip(v, 8, precision, width, flags.(hash := false));
    }
  }

  lemma FrontIsDigit(a: nat, c: Byte, d: seq<Byte>, b: nat)
    ensures Layout(a, [c], d, b) == Layout(a, [], [c] + d, b)
  {
    var x: seq<Byte> := Repeat(32, a);
    assert x + [c] + d == x + [] + ([c] + d);
  }

  /** An octal prefix is a leading zero. */
  lemma LeadingZero(a: nat, kept: seq<Byte>, b: nat)
    requires AllDigits(Reverse(kept), 8)
    ensures var s := Layout(a, [48], Reverse(kept), b);
      CString(s) && Number(s, 8) == RevValue(kept, 8)
  {
    var d := kept + [48];
    assert Repeat(48, 1) == [48];
    ZerosDoNotCount(kept, 1, 8);
    ReversePushed(kept, 48);
    FrontIsDigit(a, 48, Reverse(kept), b);
    assert AllDigits(Reverse(d), 8) by {
      assert forall k :: 0 < k < |Reverse(d)| ==> Reverse(d)[k] == Reverse(kept)[k - 1];
    }
    LayoutNumber(a, [], d, b, 8);
  }

  /** In base 16 there are 31 only if 31 are asked for. */
  lemma HexKeptLength(v: nat, precision: nat, width: nat, flags: Flags)
    requires 0 < v <= ULONG_MAX
    requires UnsignedFlags(precision, flags) || PointerFlags(precision, width, flags)
    ensures |Kept(v, 16, precision, width, flags)| == BUFFER_SIZE - 1 <==>
      flags.precision && precision == BUFFER_SIZE - 1
  {
    Powers16();
    DigitsLength(v, 16, flags.uppercase, BUFFER_SIZE, 16);
  }

  lemma HexFront(kept: seq<Byte>, flags: Flags) returns (sign: seq<Byte>, front: seq<Byte>)
    requires |kept| <= BUFFER_SIZE
    ensures IsPlusSign(sign) && front == Front(kept, 16, flags)
    ensures front == if |kept| >= BUFFER_SIZE then [] else
      if |kept| == BUFFER_SIZE - 1 then [Mark(16, flags)] else sign + [48, Mark(16, flags)]
  {
    var prefixed := Prefixed(kept, 16, flags);
    front := Front(kept, 16, flags);
    sign := SignOf(prefixed, false, flags);
    if |kept| >= BUFFER_SIZE - 1 {
      assert |prefixed| == BUFFER_SIZE && sign == [];
    }
  }

  lemma MarkIsNoDigit(base: nat, flags: Flags)
    requires base == 2 || base == 16
    ensures var m := Mark(base, flags);
      Digit(m) >= base && m != 0 && !IsSpace(m) && m != 45 && m != 43
  {
  }

  lemma {:induction false} HexAfterPrefix(a: nat, sign: seq<Byte>, mark: Byte, kept: seq<Byte>, b: nat)
    requires IsPlusSign(sign) && (mark == 120 || mark == 88) && AllDigits(Reverse(kept), 16)
    ensures var s := Layout(a, sign + [48, mark], Reverse(kept), b);
      CString(s) && Number(s, 16) == RevValue(kept, 16)
  {
    ReadHexPrefix(a, sign, mark, Reverse(kept), b);
    ValueReversed(kept, 16);
  }

  lemma HexAfterMark(a: nat, kept: seq<Byte>, b: nat, flags: Flags)
    requires AllDigits(Reverse(kept), 16)
    ensures var s := Layout(a, [Mark(16, flags)], Reverse(kept), b);
      CString(s) && Number(s, 16) == 0
  {
    MarkIsNoDigit(16, flags);
    ReadBareMark(a, Mark(16, flags), Reverse(kept), b, 16);
  }

  /** The value of a hexadecimal text with a prefix: a mark without its zero is no number. */
  lemma {:induction false} HexPrefixNumber(a: nat, kept: seq<Byte>, b: nat, flags: Flags)
    requires AllDigits(Reverse(kept), 16) && |kept| <= BUFFER_SIZE
    ensures var s := Layout(a, Front(kept, 16, flags), Reverse(kept), b);
      CString(s) && Number(s, 16) == if |kept| == BUFFER_SIZE - 1 then 0 else RevValue(kept, 16)
  {
    var sign, front := HexFront(kept, flags);
    if |kept| < BUFFER_SIZE - 1 {
      HexAfterPrefix(a, sign, Mark(16, flags), kept, b);
    } else if |kept| == BUFFER_SIZE - 1 {
      HexAfterMark(a, kept, b, flags);
    } else {
      LayoutNumber(a, [], kept, b, 16);
    }
  }

  /** A prefixed hexadecimal number comes back unless exactly 31 digits are asked for. */
  lemma HexPrefixRoundTrip(v: nat, precision: nat, width: nat, flags: Flags)
    requires 0 < v <= ULONG_MAX && HasPrefix(v, 16, precision, width, flags)
    requires UnsignedFlags(precision, flags) || PointerFlags(precision, width, flags)
    ensures var s := Text(v, false, 16, precision, width, flags) + [0];
      && CString(s)
      && (Number(s, 16) == v <==> !(flags.precision && precision == BUFFER_SIZE - 1))
  {
    var kept := Kept(v, 16, precision, width, flags);
    var z := KeptShape(v, 16, precision, width, flags);
    var a, b := PrefixText(v, 16, precision, width, flags);
    KeptDigits(v, 16, precision, width, flags);
    KeptValue(v, 16, precision, width, flags);
    PowerBounds(16);
    ModSmall(v, Pow(16, BUFFER_SIZE));
    HexKeptLength(v, precision, width, flags);
    HexPrefixNumber(a, kept, b, flags);
  }

  /** A prefixed binary number comes back only if its digits leave no room for the prefix. */
  lemma {:induction false} BinaryPrefixNumber(a: nat, kept: seq<Byte>, b: nat, flags: Flags)
    requires AllDigits(Reverse(kept), 2) && |kept| <= BUFFER_SIZE && !flags.plus && !flags.space
    ensures var s := Layout(a, Front(kept, 2, flags), Reverse(kept), b);
      CString(s) && Number(s, 2) == if |kept| < BUFFER_SIZE then 0 else RevValue(kept, 2)
  {
    FrontUnsigned(kept, 2, flags);
    var front := Front(kept, 2, flags);
    var d := Reverse(kept);
    if |kept| < BUFFER_SIZE - 1 {
      assert front == [48, 98];
      ReadBinaryPrefix(a, d, b);
    } else if |kept| == BUFFER_SIZE - 1 {
      assert front == [98];
      MarkIsNoDigit(2, flags);
      ReadBareMark(a, 98, d, b, 2);
    } else {
      assert front == [];
      LayoutNumber(a, [], kept, b, 2);
    }
  }

  lemma {:induction false} DigitsFill(v: nat, base: nat, upper: bool, n: nat, k: nat)
    requires IsBase(base) && v >= Pow(base, k) && k < n
    ensures |RevDigits(v, base, upper, n)| > k
    decreases k
  {
    if k > 0 {
      RestLarger(v, base, Pow(base, k - 1));
      DigitsFill(Rest(v, base), base, upper, n - 1, k - 1);
    }
  }

  lemma RestLarger(v: nat, base: nat, p: nat)
    requires IsBase(base) && p >= 1 && v >= base * p
    ensures v > 0 && Rest(v, base) >= p
  {
    MulAtMost(1, p, base);
    if Rest(v, base) < p {
      MulAtMost(Rest(v, base) + 1, p, base);
    }
  }

  /** 32 or more digits are asked for, by the precision or by zero padding with room for a sign. */
  predicate Wide(precision: nat, width: nat, flags: Flags) {
    precision >= BUFFER_SIZE || (flags.zeropad && !flags.left && width > BUFFER_SIZE)
  }

  /** 32 binary digits are kept for 32-bit numbers with their top bit, and if as many are asked for. */
  lemma BinaryKeptLength(v: nat, precision: nat, width: nat, flags: Flags)
    requires 0 < v < 0x1_0000_0000 && UnsignedFlags(precision, flags)
    ensures |Kept(v, 2, precision, width, flags)| == BUFFER_SIZE <==>
      v >= 0x8000_0000 || Wide(precision, width, flags)
  {
    Powers2();
    PowSum(2, 1, 31);
    var d := Digits(v, 2, flags).0;
    if v >= 0x8000_0000 {
      DigitsFill(v, 2, flags.uppercase, BUFFER_SIZE, 31);
    } else {
      DigitsLength(v, 2, flags.uppercase, BUFFER_SIZE, 31);
    }
    KeptFull(v, precision, width, flags);
  }

  lemma KeptFull(v: nat, precision: nat, width: nat, flags: Flags)
    requires 0 < v && UnsignedFlags(precision, flags)
    ensures |Kept(v, 2, precision, width, flags)| == BUFFER_SIZE <==>
      |Digits(v, 2, flags).0| == BUFFER_SIZE || Wide(precision, width, flags)
  {
    var d := Digits(v, 2, flags).0;
    var body := Body(v, false, 2, precision, width, flags);
    if flags.zeropad && !flags.left && width >= BUFFER_SIZE + 1 {
      assert |body| == BUFFER_SIZE;
    }
  }

  lemma BinaryPrefixRoundTrip(v: nat, precision: nat, width: nat, flags: Flags)
    requires v <= ULONG_MAX && HasPrefix(v, 2, precision, width, flags) && UnsignedFlags(precision, flags)
    ensures var s := Text(v, false, 2, precision, width, flags) + [0];
      && CString(s)
      && (Number(s, 2) == v <==>
          v == 0 || (v < 0x1_0000_0000 && (v >= 0x8000_0000 || Wide(precision, width, flags))))
  {
    var kept := Kept(v, 2, precision, width, flags);
    var z := KeptShape(v, 2, precision, width, flags);
    var a, b := PrefixText(v, 2, precision, width, flags);
    KeptDigits(v, 2, precision, width, flags);
    KeptValue(v, 2, precision, width, flags);
    Powers2();
    ModSmall(v, Pow(2, BUFFER_SIZE));
    BinaryPrefixNumber(a, kept, b, flags);
    if 0 < v < 0x1_0000_0000 {
      BinaryKeptLength(v, precision, width, flags);
    }
  }

  // ---------------------------------------------------------------- all conversions

  /** The numbers and flags that reach an integer conversion from a format. */
  predicate Passed(v: nat, negative: bool, base: nat, precision: nat, width: nat, flags: Flags) {
    && v <= ULONG_MAX
    && (negative ==> base == 10 && 0 < v <= LONG_MAX + 1)
    && match base {
         case 10 => Plain(flags)
         case 16 => UnsignedFlags(precision, flags) || (v != 0 && PointerFlags(precision, width, flags))
         case _ => (base == 8 || base == 2) && UnsignedFlags(precision, flags)
       }
  }

  function WithSign(v: nat, negative: bool): int { if negative then -1 * v else v }

  /** What the text does not tell, by what the caller wrote: a sign, the high bits, all behind a prefix. */
  predicate Lossy(v: nat, negative: bool, base: nat, precision: nat, width: nat, flags: Flags) {
    match base {
      case 10 => negative && Wide(precision, width, flags)
      case 16 => v != 0 && (flags.hash || flags.pointer) && flags.precision && precision == BUFFER_SIZE - 1
      case 2 => v >= 0x1_0000_0000 || (0 < v < 0x8000_0000 && flags.hash && !Wide(precision, width, flags))
      case _ => false
    }
  }

  lemma HexRoundTrip(v: nat, precision: nat, width: nat, flags: Flags)
    requires Passed(v, false, 16, precision, width, flags)
    ensures var s := Text(v, false, 16, precision, width, flags) + [0];
      CString(s) && (Number(s, 16) == v <==> !Lossy(v, false, 16, precision, width, flags))
  {
    if HasPrefix(v, 16, precision, width, flags) {
      HexPrefixRoundTrip(v, precision, width, flags);
    } else {
      DroppedPrefix(v, 16, precision, width, flags);
      UnsignedRoundTrip(v, 16, precision, width, flags.(hash := false));
    }
  }

  lemma BitsRoundTrip(v: nat, precision: nat, width: nat, flags: Flags)
    requires Passed(v, false, 2, precision, width, flags)
    ensures var s := Text(v, false, 2, precision, width, flags) + [0];
      CString(s) && (Number(s, 2) == v <==> !Lossy(v, false, 2, precision, width, flags))
  {
    if HasPrefix(v, 2, precision, width, flags) {
      BinaryPrefixRoundTrip(v, precision, width, flags);
    } else {
      DroppedPrefix(v, 2, precision, width, flags);
      BinaryRoundTrip(v, precision, width, flags.(hash := false));
    }
  }

  /**
   `strtoll` and `strtoull` undo every integer conversion, whatever the flags, width and
   precision, except those of `Lossy`.
   */
  lemma ConversionRoundTrip(v: nat, negative: bool, base: nat, precision: nat, width: nat, flags: Flags)
    requires Passed(v, negative, base, precision, width, flags)
    ensures var s := Text(v, negative, base, precision, width, flags) + [0];
      && CString(s)
      && (Number(s, base) == WithSign(v, negative) <==> !Lossy(v, negative, base, precision, width, flags))
  {
    match base {
      case 10 =>
        if negative {
          var n: int := v;
          SignedDecimalRoundTrip(-n, precision, width, flags);
        } else {
          UnsignedRoundTrip(v, 10, precision, width, flags);
        }
      case 16 => HexRoundTrip(v, precision, width, flags);
      case 2 => BitsRoundTrip(v, precision, width, flags);
      case _ => OctalRoundTrip(v, precision, width, flags);
    }
  }

  /** `%#b` of 5 reads back as 0. */
  lemma BinaryPrefixLost(v: nat, precision: nat, flags: Flags)
    requires v == 5 && precision == 0 && flags.hash && UnsignedFlags(precision, flags)
    ensures var s := Text(v, false, 2, precision, 0, flags) + [0];
      CString(s) && Number(s, 2) == 0
  {
    var a, b := PrefixText(v, 2, precision, 0, flags);
    KeptDigits(v, 2, precision, 0, flags);
    Powers2();
    BinaryKeptLength(v, precision, 0, flags);
    var z := KeptShape(v, 2, precision, 0, flags);
    BinaryPrefixNumber(a, Kept(v, 2, precision, 0, flags), b, flags);
  }

  /** `%#.31x` of 5 starts with a bare `x` and reads back as 0. */
  lemma HexMarkAlone(v: nat, precision: nat, flags: Flags)
    requires v == 5 && precision == 31 && flags.hash && flags.precision && UnsignedFlags(precision, flags)
    ensures var s := Text(v, false, 16, precision, 0, flags) + [0];
      CString(s) && Number(s, 16) == 0
  {
    var a, b := PrefixText(v, 16, precision, 0, flags);
    KeptDigits(v, 16, precision, 0, flags);
    HexKeptLength(v, precision, 0, flags);
    HexPrefixNumber(a, Kept(v, 16, precision, 0, flags), b, flags);
  }

  // ---------------------------------------------------------------- how long a conversion is

  /** Giving back padding for a prefix does not make the field shorter. */
  lemma PrefixFillsField(buf: seq<Byte>, unpadded: nat, base: nat, precision: nat, net: nat, flags: Flags)
    requires |buf| <= BUFFER_SIZE
    ensures |Prefixed(TakeBack(buf, unpadded, base, precision, net, flags), base, flags)| >= |buf|
  {
  }

  lemma FinalizedLength(buf: seq<Byte>, negative: bool, base: nat, precision: nat, net: nat, flags: Flags)
    requires |buf| <= BUFFER_SIZE && flags.zeropad && !flags.left
    ensures var r := Finalized(buf, negative, base, precision, net, flags);
      |r| >= if net >= BUFFER_SIZE then BUFFER_SIZE else if negative || flags.plus || flags.space then net + 1 else net
  {
    var padded := Padded(buf, precision, net, flags);
    PrefixFillsField(padded, |buf|, base, precision, net, flags);
  }

  /** The field is as wide as asked for, unless it is filled with more zeros than the buffer holds. */
  lemma FieldWidth(v: nat, negative: bool, base: nat, precision: nat, width: nat, flags: Flags)
    ensures |Text(v, negative, base, precision, width, flags)| >= width <==>
      !(flags.zeropad && !flags.left && width > BUFFER_SIZE)
  {
    var d, f := Digits(v, base, flags).0, Digits(v, base, flags).1;
    var net := NetWidth(negative, width, f);
    if flags.zeropad && !flags.left {
      FinalizedLength(d, negative, base, precision, net, f);
    }
  }
}
