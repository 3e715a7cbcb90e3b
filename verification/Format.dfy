/**
 Format strings of `printf`: what the characters between `%` and the specifier mean, and
 where reading them stops.
 */
module Format {
  import opened Arith
  import opened Common
  import opened PrintInteger
  import opened Strtol

  const TWO32: int := 0x1_0000_0000

  /** A text without a zero byte. */
  type Chars = s: seq<Byte> | 0 !in s

  /** One argument: a number, the address of a text, or what the floating-point printer makes of a `double`. */
  datatype Arg = Num(n: int) | Pointer(address: nat, text: Chars) | Real(text: Chars)

  /** Sizes of integers: 8, 16, 32 and 64 bits. */
  datatype Length = Char | Short | Default | Long

  function Modulus(length: Length): (m: int)
    ensures m >= 256
  {
    match length
    case Char => 0x100
    case Short => 0x1_0000
    case Default => TWO32
    case Long => 0x1_0000_0000_0000_0000
  }

  function Unsigned(n: int, length: Length): (u: nat)
    ensures u < Modulus(length)
  {
    n % Modulus(length)
  }

  function SignedValue(n: int, length: Length): (v: int)
    ensures -Modulus(length) / 2 <= v < Modulus(length) / 2
  {
    var u := Unsigned(n, length);
    if u >= Modulus(length) / 2 then u - Modulus(length) else u
  }

  function Magnitude(n: int): nat { if n < 0 then -n else n }

  // ---------------------------------------------------------------- arguments

  /** The next argument as a number; what is missing reads as zero. */
  function Next(args: seq<Arg>): int {
    if args == [] || args[0].Real? then 0 else if args[0].Num? then args[0].n else args[0].address
  }

  function NextText(args: seq<Arg>): Chars {
    if args == [] || args[0].Num? then [] else args[0].text
  }

  function Others(args: seq<Arg>): seq<Arg> {
    if args == [] then [] else args[1..]
  }

  // ---------------------------------------------------------------- from `%` to the specifier

  /** What a directive says before its specifier, and the arguments that are left. */
  datatype Request = Request(flags: Flags, width: nat, precision: nat, length: Length, args: seq<Arg>)

  /** A specifier is found, or the format ends before it. */
  datatype Directive = Ended | Found(at: nat, request: Request)

  predicate IsFlag(c: Byte) { c == 48 || c == 45 || c == 43 || c == 32 || c == 35 }

  predicate IsDigit(c: Byte) { 48 <= c <= 57 }

  function FlagsOf(t: seq<Byte>): Flags {
    Flags(48 in t, 45 in t, 43 in t, 32 in t, 35 in t, false, false, false)
  }

  function FlagsEnd(s: seq<Byte>, i: nat): (j: nat)
    requires CString(s) && i < |s|
    ensures i <= j < |s| && !IsFlag(s[j]) && forall k :: i <= k < j ==> IsFlag(s[k])
    decreases |s| - i
  {
    if IsFlag(s[i]) then FlagsEnd(s, i + 1) else i
  }

  /** A decimal number as an `unsigned int`. */
  function Decimal(t: seq<Byte>): (n: nat) { Value(t, 10) % TWO32 }

  predicate IsLength(c: Byte) { c == 104 || c == 106 || c == 108 || c == 116 || c == 122 }

  /** The parts of a directive, in their order. */
  datatype Part = InFlags | InWidth | InPrecision | InLength

  /** Reading a directive from the character at `i` in one of its parts. */
  function Scan(s: seq<Byte>, i: nat, part: Part, flags: Flags, width: nat, precision: nat, args: seq<Arg>):
    (d: Directive)
    requires CString(s) && i < |s|
    ensures d.Found? ==> i <= d.at < |s|
    decreases |s| - i, part.InFlags?, part.InWidth?, part.InPrecision?
  {
    match part
    case InFlags =>
      var j := FlagsEnd(s, i);
      Scan(s, j, InWidth, FlagsOf(s[i..j]), 0, 0, args)
    case InWidth =>
      if IsDigit(s[i]) then
        var j := RunEnd(s, i, 10);
        Scan(s, j, InPrecision, flags, Decimal(s[i..j]), 0, args)
      else if s[i] != 42 then Scan(s, i, InPrecision, flags, 0, 0, args)
      else if s[i + 1] == 0 then Ended
      else
        var w := SignedValue(Next(args), Default);
        Scan(s, i + 1, InPrecision, if w < 0 then flags.(left := true) else flags, Magnitude(w), 0, Others(args))
    case InPrecision =>
      var f := flags.(precision := true);
      if s[i] != 46 then Scan(s, i, InLength, flags, width, 0, args)
      else if s[i + 1] == 0 then Ended
      else if IsDigit(s[i + 1]) then
        var j := RunEnd(s, i + 1, 10);
        Scan(s, j, InLength, f, width, Decimal(s[i + 1..j]), args)
      else if s[i + 1] != 42 then Scan(s, i + 1, InLength, f, width, 0, args)
      else if s[i + 2] == 0 then Ended
      else
        var p := SignedValue(Next(args), Default);
        Scan(s, i + 2, InLength, f, width, if p > 0 then p else 0, Others(args))
    case InLength =>
      if !IsLength(s[i]) then Found(i, Request(flags, width, precision, Default, args))
      else if s[i + 1] == 0 then Ended
      else if (s[i] == 104 || s[i] == 108) && s[i + 1] == s[i] then
        if s[i + 2] == 0 then Ended
        else Found(i + 2, Request(flags, width, precision, if s[i] == 104 then Char else Long, args))
      else Found(i + 1, Request(flags, width, precision, if s[i] == 104 then Short else Long, args))
  }

  /** The directive whose first character after `%` is at `i`. */
  function Parse(s: seq<Byte>, i: nat, args: seq<Arg>): (d: Directive)
    requires CString(s) && i < |s|
    ensures d.Found? ==> i <= d.at < |s|
  {
    Scan(s, i, InFlags, FlagsOf([]), 0, 0, args)
  }

  /** Where the specifier is. */
  function Place(d: Directive): Option<nat> { if d.Ended? then None else Some(d.at) }

  lemma {:induction false} PrecisionPlace(s: seq<Byte>, i: nat, f: Flags, g: Flags, w: nat, x: nat,
                                          a: seq<Arg>, b: seq<Arg>)
    requires CString(s) && i < |s|
    ensures Place(Scan(s, i, InPrecision, f, w, 0, a)) == Place(Scan(s, i, InPrecision, g, x, 0, b))
  {
  }

  lemma WidthPlace(s: seq<Byte>, i: nat, flags: Flags, a: seq<Arg>, b: seq<Arg>)
    requires CString(s) && i < |s|
    ensures Place(Scan(s, i, InWidth, flags, 0, 0, a)) == Place(Scan(s, i, InWidth, flags, 0, 0, b))
  {
    var w, x := SignedValue(Next(a), Default), SignedValue(Next(b), Default);
    var f := if w < 0 then flags.(left := true) else flags;
    var g := if x < 0 then flags.(left := true) else flags;
    if IsDigit(s[i]) {
      var j := RunEnd(s, i, 10);
      PrecisionPlace(s, j, flags, flags, Decimal(s[i..j]), Decimal(s[i..j]), a, b);
    } else if s[i] != 42 {
      PrecisionPlace(s, i, flags, flags, 0, 0, a, b);
    } else if s[i + 1] != 0 {
      PrecisionPlace(s, i + 1, f, g, Magnitude(w), Magnitude(x), Others(a), Others(b));
    }
  }

  /** The arguments do not decide where a specifier is. */
  lemma SamePlace(s: seq<Byte>, i: nat, a: seq<Arg>, b: seq<Arg>)
    requires CString(s) && i < |s|
    ensures Place(Parse(s, i, a)) == Place(Parse(s, i, b))
  {
    var j := FlagsEnd(s, i);
    WidthPlace(s, j, FlagsOf(s[i..j]), a, b);
  }

  /** Only the flags of the format are set, and a precision comes with its flag. */
  predicate FlagsRead(d: Directive) {
    d.Found? ==>
      var r := d.request;
      !r.flags.pointer && !r.flags.uppercase && (!r.flags.precision ==> r.precision == 0)
  }

  lemma {:induction false} LengthFlags(s: seq<Byte>, i: nat, flags: Flags, width: nat, precision: nat, args: seq<Arg>)
    requires CString(s) && i < |s| && !flags.pointer && !flags.uppercase && (!flags.precision ==> precision == 0)
    ensures FlagsRead(Scan(s, i, InLength, flags, width, precision, args))
  {
  }

  lemma {:induction false} PrecisionFlags(s: seq<Byte>, i: nat, flags: Flags, width: nat, args: seq<Arg>)
    requires CString(s) && i < |s| && !flags.pointer && !flags.uppercase
    ensures FlagsRead(Scan(s, i, InPrecision, flags, width, 0, args))
  {
    var f := flags.(precision := true);
    var p := SignedValue(Next(args), Default);
    if s[i] != 46 {
      LengthFlags(s, i, flags, width, 0, args);
    } else if s[i + 1] != 0 {
      if IsDigit(s[i + 1]) {
        var j := RunEnd(s, i + 1, 10);
        LengthFlags(s, j, f, width, Decimal(s[i + 1..j]), args);
      } else if s[i + 1] != 42 {
        LengthFlags(s, i + 1, f, width, 0, args);
      } else if s[i + 2] != 0 {
        LengthFlags(s, i + 2, f, width, if p > 0 then p else 0, Others(args));
      }
    }
  }

  lemma WidthFlags(s: seq<Byte>, i: nat, flags: Flags, args: seq<Arg>)
    requires CString(s) && i < |s| && !flags.pointer && !flags.uppercase
    ensures FlagsRead(Scan(s, i, InWidth, flags, 0, 0, args))
  {
    var w := SignedValue(Next(args), Default);
    if IsDigit(s[i]) {
      var j := RunEnd(s, i, 10);
      PrecisionFlags(s, j, flags, Decimal(s[i..j]), args);
    } else if s[i] != 42 {
      PrecisionFlags(s, i, flags, 0, args);
    } else if s[i + 1] != 0 {
      PrecisionFlags(s, i + 1, if w < 0 then flags.(left := true) else flags, Magnitude(w), Others(args));
    }
  }

  lemma ParsedFlags(s: seq<Byte>, i: nat, args: seq<Arg>)
    requires CString(s) && i < |s|
    ensures FlagsRead(Parse(s, i, args))
  {
    var j := FlagsEnd(s, i);
    WidthFlags(s, j, FlagsOf(s[i..j]), args);
  }

  // ---------------------------------------------------------------- the grammar

  predicate DecimalLetter(c: Byte) { '0' as int <= c <= '9' as int }

  predicate FlagLetter(c: Byte) { c in {'0' as int, '-' as int, '+' as int, ' ' as int, '#' as int} }

  predicate LengthLetter(c: Byte) { c in {'h' as int, 'j' as int, 'l' as int, 't' as int, 'z' as int} }

  ghost predicate Decimals(t: seq<Byte>) { forall k :: 0 <= k < |t| ==> DecimalLetter(t[k]) }

  ghost predicate FlagText(t: seq<Byte>) { forall k :: 0 <= k < |t| ==> FlagLetter(t[k]) }

  /** Nothing, `*` or a number; a leading zero would be a flag. */
  ghost predicate WidthText(t: seq<Byte>) { t == [] || t == [42] || (Decimals(t) && t[0] != 48) }

  /** Nothing, or a point with nothing, `*` or a number behind it. */
  ghost predicate PrecisionText(t: seq<Byte>) {
    t == [] || (t[0] == 46 && (t[1..] == [42] || Decimals(t[1..])))
  }

  predicate LengthText(t: seq<Byte>) {
    || t == [] || t == [104, 104] || t == [108, 108]
    || (|t| == 1 && LengthLetter(t[0]))
  }

  function LengthOf(t: seq<Byte>): Length {
    if t == [] then Default else if t == [104] then Short else if t == [104, 104] then Char else Long
  }

  /** What can end a directive. */
  predicate IsSpecifier(c: Byte) {
    c != 0 && !FlagLetter(c) && !DecimalLetter(c) && c != '*' as int && c != '.' as int && !LengthLetter(c)
  }

  /** `t` stands at `i` in `s`. */
  predicate Stands(s: seq<Byte>, i: nat, t: seq<Byte>) { i + |t| <= |s| && s[i..i + |t|] == t }

  /** The request with this text for precision and length. */
  function WithPrecision(flags: Flags, width: nat, pt: seq<Byte>, lt: seq<Byte>, args: seq<Arg>): Request {
    var f := flags.(precision := pt != []);
    var p := SignedValue(Next(args), Default);
    if pt == [46, 42] then Request(f, width, if p > 0 then p else 0, LengthOf(lt), Others(args))
    else Request(f, width, if pt == [] then 0 else Decimal(pt[1..]), LengthOf(lt), args)
  }

  /** The request with this text for width, precision and length. */
  function WithWidth(flags: Flags, wt: seq<Byte>, pt: seq<Byte>, lt: seq<Byte>, args: seq<Arg>): Request {
    var w := SignedValue(Next(args), Default);
    if wt == [42] then WithPrecision(flags.(left := flags.left || w < 0), Magnitude(w), pt, lt, Others(args))
    else WithPrecision(flags, Decimal(wt), pt, lt, args)
  }

  lemma {:induction false} FlagsEndIs(s: seq<Byte>, i: nat, j: nat)
    requires CString(s) && i <= j < |s| && !IsFlag(s[j]) && FlagText(s[i..j])
    ensures FlagsEnd(s, i) == j
  {
    forall k | i <= k < j
      ensures IsFlag(s[k])
    {
      assert s[k] == s[i..j][k - i];
    }
  }

  lemma {:induction false} NumberEndIs(s: seq<Byte>, i: nat, j: nat)
    requires CString(s) && i <= j < |s| && !IsDigit(s[j]) && Decimals(s[i..j])
    ensures RunEnd(s, i, 10) == j
  {
    forall k | i <= k < j
      ensures Digit(s[k]) < 10
    {
      assert s[k] == s[i..j][k - i];
    }
  }

  lemma LengthRead(s: seq<Byte>, i: nat, lt: seq<Byte>, flags: Flags, width: nat, precision: nat, args: seq<Arg>)
    requires CString(s) && LengthText(lt) && Stands(s, i, lt) && i + |lt| < |s| && IsSpecifier(s[i + |lt|])
    ensures Scan(s, i, InLength, flags, width, precision, args)
         == Found(i + |lt|, Request(flags, width, precision, LengthOf(lt), args))
  {
    assert forall k :: 0 <= k < |lt| ==> s[i..i + |lt|][k] == s[i + k] == lt[k];
  }

  /** What stands behind a number or `*` ends it. */
  predicate EndsWidth(c: Byte) { c != 0 && !IsFlag(c) && !IsDigit(c) && c != 42 }

  /** What follows the width does not look like a part of it. */
  lemma AfterWidth(s: seq<Byte>, i: nat, pt: seq<Byte>, lt: seq<Byte>)
    requires PrecisionText(pt) && LengthText(lt) && Stands(s, i, pt) && Stands(s, i + |pt|, lt)
    requires i + |pt| + |lt| < |s| && IsSpecifier(s[i + |pt| + |lt|])
    ensures EndsWidth(s[i]) && EndsWidth(s[i + |pt|])
    ensures pt == [] ==> s[i] != 46
    ensures forall k :: i <= k <= i + |pt| ==> s[k] != 0
  {
    assert pt != [] ==> s[i] == s[i..i + |pt|][0];
    assert lt != [] ==> s[i + |pt|] == s[i + |pt|..i + |pt| + |lt|][0];
    forall k | i <= k < i + |pt|
      ensures s[k] != 0
    {
      assert s[k] == pt[k - i] && (k > i ==> pt[k - i] == pt[1..][k - i - 1]);
    }
  }

  lemma PrecisionStar(s: seq<Byte>, i: nat, lt: seq<Byte>, flags: Flags, width: nat, args: seq<Arg>)
    requires CString(s) && i + 2 + |lt| < |s| && s[i] == 46 && s[i + 1] == 42 && s[i + 2] != 0
    requires LengthText(lt) && Stands(s, i + 2, lt) && IsSpecifier(s[i + 2 + |lt|])
    ensures Scan(s, i, InPrecision, flags, width, 0, args)
         == Found(i + 2 + |lt|, WithPrecision(flags, width, [46, 42], lt, args))
  {
    var p := SignedValue(Next(args), Default);
    LengthRead(s, i + 2, lt, flags.(precision := true), width, if p > 0 then p else 0, Others(args));
  }

  lemma PrecisionNumber(s: seq<Byte>, i: nat, t: seq<Byte>, lt: seq<Byte>, flags: Flags, width: nat, args: seq<Arg>)
    requires CString(s) && Decimals(t) && LengthText(lt) && Stands(s, i + 1, t) && Stands(s, i + 1 + |t|, lt)
    requires i + 1 + |t| + |lt| < |s| && IsSpecifier(s[i + 1 + |t| + |lt|]) && s[i] == 46 && s[i + 1] != 0
    requires EndsWidth(s[i + 1 + |t|])
    ensures Scan(s, i, InPrecision, flags, width, 0, args)
         == Found(i + 1 + |t| + |lt|, Request(flags.(precision := true), width, Decimal(t), LengthOf(lt), args))
  {
    var j := i + 1 + |t|;
    if t != [] {
      assert s[i + 1] == s[i + 1..j][0];
      NumberEndIs(s, i + 1, j);
    }
    LengthRead(s, j, lt, flags.(precision := true), width, Decimal(t), args);
  }

  lemma {:induction false} PrecisionRead(s: seq<Byte>, i: nat, pt: seq<Byte>, lt: seq<Byte>, flags: Flags,
                                         width: nat, args: seq<Arg>)
    requires CString(s) && PrecisionText(pt) && LengthText(lt) && Stands(s, i, pt) && Stands(s, i + |pt|, lt)
    requires i + |pt| + |lt| < |s| && IsSpecifier(s[i + |pt| + |lt|]) && !flags.precision
    ensures Scan(s, i, InPrecision, flags, width, 0, args)
         == Found(i + |pt| + |lt|, WithPrecision(flags, width, pt, lt, args))
  {
    var j := i + |pt|;
    AfterWidth(s, i, pt, lt);
    if pt == [] {
      assert flags.(precision := false) == flags;
      LengthRead(s, i, lt, flags, width, 0, args);
    } else {
      assert s[i] == s[i..j][0] == 46;
      var t := pt[1..];
      if t == [42] {
        assert pt == [46, 42] && s[i + 1] == s[i..j][1];
        PrecisionStar(s, i, lt, flags, width, args);
      } else {
        assert s[i + 1..j] == t;
        PrecisionNumber(s, i, t, lt, flags, width, args);
      }
    }
  }

  lemma StarRead(s: seq<Byte>, i: nat, flags: Flags, args: seq<Arg>)
    requires CString(s) && i + 1 < |s| && s[i] == 42 && EndsWidth(s[i + 1])
    ensures var w := SignedValue(Next(args), Default);
      Scan(s, i, InWidth, flags, 0, 0, args)
        == Scan(s, i + 1, InPrecision, flags.(left := flags.left || w < 0), Magnitude(w), 0, Others(args))
  {
    assert flags.(left := flags.left) == flags;
  }

  lemma NumberRead(s: seq<Byte>, i: nat, j: nat, flags: Flags, args: seq<Arg>)
    requires CString(s) && i <= j < |s| && Decimals(s[i..j]) && EndsWidth(s[j])
    ensures Scan(s, i, InWidth, flags, 0, 0, args) == Scan(s, j, InPrecision, flags, Decimal(s[i..j]), 0, args)
  {
    if i < j {
      assert s[i] == s[i..j][0];
      NumberEndIs(s, i, j);
    } else {
      assert s[i..j] == [];
    }
  }

  lemma WidthStart(s: seq<Byte>, i: nat, wt: seq<Byte>)
    requires WidthText(wt) && Stands(s, i, wt) && i + |wt| < |s| && EndsWidth(s[i + |wt|])
    ensures !IsFlag(s[i])
  {
    assert wt != [] ==> s[i] == s[i..i + |wt|][0];
  }

  /** A directive from its width on. */
  lemma {:induction false} WidthRead(s: seq<Byte>, i: nat, flags: Flags, wt: seq<Byte>, pt: seq<Byte>,
                                     lt: seq<Byte>, args: seq<Arg>)
    requires CString(s) && WidthText(wt) && PrecisionText(pt) && LengthText(lt) && !flags.precision
    requires Stands(s, i, wt) && Stands(s, i + |wt|, pt) && Stands(s, i + |wt| + |pt|, lt)
    requires i + |wt| + |pt| + |lt| < |s| && IsSpecifier(s[i + |wt| + |pt| + |lt|])
    ensures Scan(s, i, InWidth, flags, 0, 0, args) == Found(i + |wt| + |pt| + |lt|, WithWidth(flags, wt, pt, lt, args))
  {
    var j := i + |wt|;
    AfterWidth(s, j, pt, lt);
    if wt == [42] {
      var w := SignedValue(Next(args), Default);
      assert s[i] == s[i..j][0];
      StarRead(s, i, flags, args);
      PrecisionRead(s, j, pt, lt, flags.(left := flags.left || w < 0), Magnitude(w), Others(args));
    } else {
      NumberRead(s, i, j, flags, args);
      PrecisionRead(s, j, pt, lt, flags, Decimal(wt), args);
    }
  }

  /** A directive of the grammar stands at `i`, with its specifier at `at`. */
  ghost predicate StandsDirective(s: seq<Byte>, i: nat, fl: seq<Byte>, wt: seq<Byte>, pt: seq<Byte>, lt: seq<Byte>,
                                  at: nat)
  {
    && FlagText(fl) && WidthText(wt) && PrecisionText(pt) && LengthText(lt)
    && Stands(s, i, fl) && Stands(s, i + |fl|, wt) && Stands(s, i + |fl| + |wt|, pt)
    && Stands(s, i + |fl| + |wt| + |pt|, lt)
    && at == i + |fl| + |wt| + |pt| + |lt| < |s| && IsSpecifier(s[at])
  }

  /**
   A directive of the grammar is read as it is written: its flags in any order, `*` for width
   and precision from the arguments, a negative width as left justification.
   */
  lemma WellFormedDirective(s: seq<Byte>, i: nat, fl: seq<Byte>, wt: seq<Byte>, pt: seq<Byte>, lt: seq<Byte>, at: nat,
                            args: seq<Arg>)
    requires CString(s) && StandsDirective(s, i, fl, wt, pt, lt, at)
    ensures Parse(s, i, args) == Found(at, WithWidth(FlagsOf(fl), wt, pt, lt, args))
  {
    var j := i + |fl|;
    AfterWidth(s, j + |wt|, pt, lt);
    WidthStart(s, j, wt);
    FlagsEndIs(s, i, j);
    WidthRead(s, j, FlagsOf(fl), wt, pt, lt, args);
  }

  // ---------------------------------------------------------------- the code

  /** The flag a character stands for is added. */
  function AddFlag(flags: Flags, c: Byte): Flags {
    match c
    case 48 => flags.(zeropad := true)
    case 45 => flags.(left := true)
    case 43 => flags.(plus := true)
    case 32 => flags.(space := true)
    case 35 => flags.(hash := true)
    case _ => flags
  }

  lemma FlagAdded(t: seq<Byte>, c: Byte)
    ensures FlagsOf(t + [c]) == AddFlag(FlagsOf(t), c)
  {
    assert forall x: Byte :: x in t + [c] <==> x in t || x == c;
  }

  method ReadFlags(s: seq<Byte>, i: nat) returns (j: nat, flags: Flags)
    requires CString(s) && i < |s|
    ensures j == FlagsEnd(s, i) && flags == FlagsOf(s[i..j])
  {
    j, flags := i, FlagsOf([]);
    while IsFlag(s[j])
      invariant i <= j < |s| && FlagsEnd(s, j) == FlagsEnd(s, i) && flags == FlagsOf(s[i..j])
      decreases |s| - j
    {
      assert s[i..j + 1] == s[i..j] + [s[j]];
      FlagAdded(s[i..j], s[j]);
      flags := AddFlag(flags, s[j]);
      j := j + 1;
    }
  }

  lemma WrapStep(v: int, c: int)
    ensures (v * 10 + c) % TWO32 == (v % TWO32 * 10 + c) % TWO32
  {
    var q, r := v / TWO32, v % TWO32;
    var w := r * 10 + c;
    DivModUnique(v * 10 + c, TWO32, q * 10 + w / TWO32, w % TWO32);
  }

  /** One more digit, with the wrap-around of `unsigned int`. */
  lemma {:induction false} DecimalStep(t: seq<Byte>, c: Byte)
    ensures Decimal(t + [c]) == (Decimal(t) * 10 + Digit(c)) % TWO32
  {
    var u := t + [c];
    assert u[..|u| - 1] == t;
    assert Value(u, 10) == Value(t, 10) * 10 + Digit(c);
    WrapStep(Value(t, 10), Digit(c));
  }

  method Atou(s: seq<Byte>, i: nat) returns (j: nat, n: nat)
    requires CString(s) && i < |s|
    ensures j == RunEnd(s, i, 10) && n == Decimal(s[i..j])
  {
    j, n := i, 0;
    while IsDigit(s[j])
      invariant i <= j < |s| && RunEnd(s, j, 10) == RunEnd(s, i, 10) && n == Decimal(s[i..j])
      decreases |s| - j
    {
      DecimalStep(s[i..j], s[j]);
      assert s[i..j + 1] == s[i..j] + [s[j]];
      n := (n * 10 + (s[j] - 48)) % TWO32;
      j := j + 1;
    }
  }

  /** From the first character after `%` to the specifier, with the early returns at the end of the format. */
  method Read(s: seq<Byte>, i0: nat, args: seq<Arg>) returns (d: Directive)
    requires CString(s) && i0 < |s|
    ensures d == Parse(s, i0, args)
  {
    var i, flags := ReadFlags(s, i0);
    d := ReadWidth(s, i, flags, args);
  }

  method ReadWidth(s: seq<Byte>, i0: nat, flags0: Flags, args0: seq<Arg>) returns (d: Directive)
    requires CString(s) && i0 < |s|
    ensures d == Scan(s, i0, InWidth, flags0, 0, 0, args0)
  {
    var args, i, flags, width := args0, i0, flags0, 0;
    if IsDigit(s[i]) {
      i, width := Atou(s, i);
    } else if s[i] == 42 {
      var w := SignedValue(Next(args), Default);
      args := Others(args);
      if w < 0 {
        flags := flags.(left := true);
      }
      width := Magnitude(w);
      i := i + 1;
      if s[i] == 0 { return Ended; }
    }
    d := ReadPrecision(s, i, flags, width, args);
  }

  method ReadPrecision(s: seq<Byte>, i0: nat, flags0: Flags, width: nat, args0: seq<Arg>) returns (d: Directive)
    requires CString(s) && i0 < |s|
    ensures d == Scan(s, i0, InPrecision, flags0, width, 0, args0)
  {
    var args, i, flags, precision := args0, i0, flags0, 0;
    if s[i] == 46 {
      flags := flags.(precision := true);
      i := i + 1;
      if s[i] == 0 { return Ended; }
      if IsDigit(s[i]) {
        i, precision := Atou(s, i);
      } else if s[i] == 42 {
        var p := SignedValue(Next(args), Default);
        args := Others(args);
        precision := if p > 0 then p else 0;
        i := i + 1;
        if s[i] == 0 { return Ended; }
      }
    }
    d := ReadLength(s, i, flags, width, precision, args);
  }

  method ReadLength(s: seq<Byte>, i0: nat, flags: Flags, width: nat, precision: nat, args: seq<Arg>)
    returns (d: Directive)
    requires CString(s) && i0 < |s|
    ensures d == Scan(s, i0, InLength, flags, width, precision, args)
  {
    var i, length := i0, Default;
    match s[i] {
      case 108 =>
        length := Long;
        i := i + 1;
        if s[i] == 0 { return Ended; }
        if s[i] == 108 {
          i := i + 1;
          if s[i] == 0 { return Ended; }
        }
      case 104 =>
        length := Short;
        i := i + 1;
        if s[i] == 0 { return Ended; }
        if s[i] == 104 {
          length := Char;
          i := i + 1;
          if s[i] == 0 { return Ended; }
        }
      case 116 | 106 | 122 =>
        length := Long;
        i := i + 1;
        if s[i] == 0 { return Ended; }
      case _ =>
    }
    d := Found(i, Request(flags, width, precision, length, args));
  }
}
