/**
 Integer conversions as section 7.21.6.1 of ISO C11 describes them (with `b` as in C23), and
 exactly when the conversion through a buffer of 32 characters prints the same text.
 */
module PrintStandard {
  import opened Arith
  import opened Common
  import opened PrintInteger
  import opened PrintParse
  import opened Strtol

  // ---------------------------------------------------------------- the standard

  /** How a number is to be shown. */
  datatype Style = Style(
    left: bool, plus: bool, space: bool, alt: bool, zero: bool, width: nat, precision: Option<nat>)

  function NumChar(d: nat, upper: bool): Byte
    requires d < 36
  {
    if d < 10 then '0' as int + d else (if upper then 'A' as int else 'a' as int) + d - 10
  }

  /** The digits of a number, without leading zeros. */
  function Numeral(v: nat, base: nat, upper: bool): seq<Byte>
    requires 2 <= base <= 36
    decreases v
  {
    if v == 0 then [] else Numeral(v / base, base, upper) + [NumChar(v % base, upper)]
  }

  /** The precision is the least number of digits; without one it is 1. */
  function StdDigits(v: nat, base: nat, upper: bool, style: Style): seq<Byte>
    requires 2 <= base <= 36
  {
    var n := Numeral(v, base, upper);
    Repeat('0' as int, (if style.precision.Some? then style.precision.value else 1) - |n|) + n
  }

  /** `0x` before a hexadecimal and `0b` before a binary number other than 0, a leading `0` in octal. */
  function StdPrefix(v: nat, base: nat, upper: bool, digits: seq<Byte>, style: Style): seq<Byte> {
    if !style.alt then []
    else if base == 8 then (if digits != [] && digits[0] == '0' as int then [] else ['0' as int])
    else if v == 0 then []
    else if base == 16 then ['0' as int, if upper then 'X' as int else 'x' as int]
    else if base == 2 then ['0' as int, 'b' as int]
    else []
  }

  function StdSign(negative: bool, style: Style): seq<Byte> {
    if negative then ['-' as int] else if style.plus then ['+' as int] else if style.space then [' ' as int] else []
  }

  /** Zeros fill the field only from the left and without a precision. */
  predicate ZeroFilled(style: Style) { style.zero && !style.left && style.precision.None? }

  /** Sign and prefix, then digits, in a field of the width: blanks outside, or zeros in between. */
  function StdField(front: seq<Byte>, digits: seq<Byte>, style: Style): seq<Byte> {
    var room := style.width - |front| - |digits|;
    if style.left then front + digits + Repeat(' ' as int, room)
    else if ZeroFilled(style) then front + (Repeat('0' as int, room) + digits)
    else Repeat(' ' as int, room) + (front + digits)
  }

  function StdFront(v: nat, negative: bool, base: nat, upper: bool, style: Style): seq<Byte>
    requires 2 <= base <= 36
  {
    StdSign(negative, style) + StdPrefix(v, base, upper, StdDigits(v, base, upper, style), style)
  }

  function StdText(v: nat, negative: bool, base: nat, upper: bool, style: Style): seq<Byte>
    requires 2 <= base <= 36
  {
    StdField(StdFront(v, negative, base, upper, style), StdDigits(v, base, upper, style), style)
  }

  // ---------------------------------------------------------------- what the code is asked for

  /** The flags that the format loop hands to the conversion for this style. */
  predicate Means(flags: Flags, precision: nat, width: nat, upper: bool, style: Style) {
    && flags.left == style.left && flags.plus == style.plus && flags.space == style.space && flags.hash == style.alt
    && flags.uppercase == upper && !flags.pointer && width == style.width
    && flags.precision == style.precision.Some?
    && precision == (if style.precision.Some? then style.precision.value else 0)
    && flags.zeropad == (style.zero && style.precision.None?)
  }

  /** All that is printed but blanks fits the buffer. */
  predicate Fits(v: nat, negative: bool, base: nat, upper: bool, style: Style)
    requires 2 <= base <= 36
  {
    && |StdFront(v, negative, base, upper, style)| + |StdDigits(v, base, upper, style)| <= BUFFER_SIZE
    && (ZeroFilled(style) ==> style.width <= BUFFER_SIZE)
  }

  lemma CharOf(d: nat, upper: bool)
    requires d < 16
    ensures DigitChar(d, upper) == NumChar(d, upper)
  {
  }

  lemma ReverseCons(c: Byte, d: seq<Byte>)
    ensures Reverse([c] + d) == Reverse(d) + [c]
  {
    var x, y := Reverse([c] + d), Reverse(d) + [c];
    forall k | 0 <= k < |x|
      ensures x[k] == y[k]
    {
      assert x[k] == ([c] + d)[|d| - k];
    }
  }

  lemma DigitStep(v: nat, base: nat, upper: bool, n: nat)
    requires IsBase(base) && v != 0 && n > 0
    ensures v / base < v && v % base < 16
    ensures RevDigits(v, base, upper, n) == [NumChar(v % base, upper)] + RevDigits(v / base, base, upper, n - 1)
  {
    assert Rest(v, base) == v / base && Low(v, base) == v % base;
    CharOf(v % base, upper);
  }

  /** The buffer has the digits of the number, the last one first, as far as it goes. */
  lemma {:induction false} NumeralReversed(v: nat, base: nat, upper: bool, n: nat)
    requires IsBase(base)
    ensures |RevDigits(v, base, upper, n)| == if |Numeral(v, base, upper)| <= n then |Numeral(v, base, upper)| else n
    ensures |Numeral(v, base, upper)| <= n ==> Reverse(RevDigits(v, base, upper, n)) == Numeral(v, base, upper)
    decreases v
  {
    if v != 0 && n > 0 {
      DigitStep(v, base, upper, n);
      NumeralReversed(v / base, base, upper, n - 1);
      ReverseCons(NumChar(v % base, upper), RevDigits(v / base, base, upper, n - 1));
    }
  }

  // ---------------------------------------------------------------- the text of the code, part by part

  lemma {:induction false} RepeatMore(c: Byte, n: int)
    requires n >= 0
    ensures [c] + Repeat(c, n) == Repeat(c, n + 1)
  {
    if n > 0 {
      RepeatMore(c, n - 1);
    }
  }

  lemma ReverseZeros(d: seq<Byte>, z: nat)
    ensures Reverse(d + Repeat(48, z)) == Repeat(48, z) + Reverse(d)
  {
    var x, y := Reverse(d + Repeat(48, z)), Repeat(48, z) + Reverse(d);
    forall k | 0 <= k < |x|
      ensures x[k] == y[k]
    {
      assert x[k] == (d + Repeat(48, z))[|d| + z - 1 - k];
    }
  }

  /** What the code is handed for the conversions of a format other than `p`. */
  predicate Handed(negative: bool, base: nat, precision: nat, width: nat, flags: Flags, upper: bool, style: Style) {
    && IsBase(base) && Means(flags, precision, width, upper, style)
    && (negative ==> base == 10) && (base == 10 ==> !flags.hash) && (base != 10 ==> !flags.plus && !flags.space)
  }

  function Max(a: int, b: int): int { if a < b then b else a }

  function AtMost(a: int, b: int): int { if a < b then a else b }

  /** The length of the digits with the zeros before them. */
  function BodyLength(n: nat, precision: nat, net: nat, flags: Flags): nat {
    var filled := if !flags.left && flags.zeropad then Max(n, AtMost(net, BUFFER_SIZE)) else n;
    Max(filled, AtMost(precision, BUFFER_SIZE))
  }

  lemma BodyLengthIs(v: nat, negative: bool, base: nat, precision: nat, width: nat, flags: Flags)
    ensures |Body(v, negative, base, precision, width, flags)|
         == BodyLength(|Digits(v, base, flags).0|, precision, NetWidth(negative, width, flags), flags)
  {
  }

  /** The text of the code: sign and prefix as far as they have room, zeros and digits, justified. */
  lemma PlainCore(v: nat, negative: bool, base: nat, precision: nat, width: nat, flags: Flags) returns (z: nat)
    requires if negative then Plain(flags) else !HasPrefix(v, base, precision, width, flags)
    ensures var d := Digits(v, base, flags).0;
      var net := NetWidth(negative, width, flags);
      var body := Body(v, negative, base, precision, width, flags);
      && |d| + z == |body| == BodyLength(|d|, precision, net, flags)
      && Text(v, negative, base, precision, width, flags)
         == Justified(SignOf(body, negative, flags) + (Repeat(48, z) + Reverse(d)), net, flags)
  {
    var body := Body(v, negative, base, precision, width, flags);
    BodyLengthIs(v, negative, base, precision, width, flags);
    z := BodyShape(v, negative, base, precision, width, flags);
    ReverseZeros(Digits(v, base, flags).0, z);
    SignedReversed(body, negative, flags);
    if negative {
      PlainText(v, negative, base, precision, width, flags);
    } else {
      NoPrefixShape(v, base, precision, width, flags);
    }
  }

  lemma PrefixCore(v: nat, base: nat, precision: nat, width: nat, flags: Flags) returns (z: nat)
    requires HasPrefix(v, base, precision, width, flags) && !flags.plus && !flags.space
    ensures var d := Digits(v, base, flags).0;
      var kept := Kept(v, base, precision, width, flags);
      && |d| + z == |kept| && NetWidth(false, width, flags) == width
      && Text(v, false, base, precision, width, flags)
         == Justified(PrefixOf(kept, base, flags) + (Repeat(48, z) + Reverse(d)), width, flags)
  {
    var kept := Kept(v, base, precision, width, flags);
    z := KeptShape(v, base, precision, width, flags);
    ReverseZeros(Digits(v, base, flags).0, z);
    var prefixed := Prefixed(kept, base, flags);
    SignedReversed(prefixed, false, flags);
    PrefixedReversed(kept, base, flags);
    PrefixTextShape(v, base, precision, width, flags);
    assert SignOf(prefixed, false, flags) == [];
    assert [] + (PrefixOf(kept, base, flags) + Reverse(kept)) == PrefixOf(kept, base, flags) + Reverse(kept);
  }

  /** The digits of the standard are those in the buffer with zeros up to the precision. */
  lemma DigitsShape(v: nat, base: nat, precision: nat, flags: Flags, width: nat, upper: bool, style: Style)
    requires IsBase(base) && Means(flags, precision, width, upper, style)
    requires |Numeral(v, base, upper)| <= BUFFER_SIZE
    ensures var r := Reverse(Digits(v, base, flags).0);
      && StdDigits(v, base, upper, style) == Repeat(48, precision - |r|) + r
      && (v != 0 ==> r == Numeral(v, base, upper) && r != [])
  {
    NumeralReversed(v, base, upper, BUFFER_SIZE);
    if v == 0 {
      assert Numeral(v, base, upper) == [];
      var d := Digits(v, base, flags).0;
      if style.precision.None? {
        assert Reverse(d) == [48];
        assert Repeat(48, 1) == Repeat(48, 0) + [48] == [48];
      } else {
        assert Reverse(d) == [];
      }
    }
  }

  // ---------------------------------------------------------------- the two texts

  /** A binary zero with `#` and a precision: the code prints `0b` before it. */
  predicate BinaryZero(v: nat, base: nat, style: Style) {
    base == 2 && v == 0 && style.alt && style.precision.Some?
  }

  /** In octal the zeros that fill the field are the prefix. */
  predicate PrefixInFill(v: nat, base: nat, n: nat, style: Style) {
    base == 8 && style.alt && ZeroFilled(style) && v != 0 && style.width > n
  }

  lemma FirstZero(n: int, r: seq<Byte>)
    requires n > 0
    ensures (Repeat(48, n) + r)[0] == 48
  {
  }

  lemma DivisionStep(v: nat, base: nat)
    requires IsBase(base)
    ensures v < base ==> v / base == 0 && v % base == v
    ensures v >= base ==> 0 < v / base < v
  {
    if base == 2 {
    } else if base == 8 {
    } else if base == 10 {
    } else {
    }
  }

  lemma {:induction false} NumeralStart(v: nat, base: nat, upper: bool)
    requires IsBase(base) && v != 0
    ensures Numeral(v, base, upper) != [] && Numeral(v, base, upper)[0] != 48
    decreases v
  {
    DivisionStep(v, base);
    if v >= base {
      NumeralStart(v / base, base, upper);
    } else {
      assert Numeral(v, base, upper) == [] + [NumChar(v, upper)];
    }
  }

  /** Where the code prints no prefix, the standard has none, or it is one of the zeros. */
  lemma NoPrefix(v: nat, base: nat, precision: nat, width: nat, flags: Flags, upper: bool, style: Style)
    requires Handed(false, base, precision, width, flags, upper, style) && |Numeral(v, base, upper)| <= BUFFER_SIZE
    requires !HasPrefix(v, base, precision, width, flags)
    ensures var pre := StdPrefix(v, base, upper, StdDigits(v, base, upper, style), style);
      pre == if PrefixInFill(v, base, |Digits(v, base, flags).0|, style) then [48] else []
  {
    var d := Digits(v, base, flags).0;
    DigitsShape(v, base, precision, flags, width, upper, style);
    BodyLengthIs(v, false, base, precision, width, flags);
    if base == 8 && style.alt {
      if v != 0 {
        NumeralStart(v, base, upper);
      }
      if precision > |d| {
        FirstZero(precision - |d|, Reverse(d));
      }
    }
  }

  lemma HasPrefixToo(v: nat, base: nat, precision: nat, width: nat, flags: Flags, upper: bool, style: Style)
    requires Handed(false, base, precision, width, flags, upper, style) && |Numeral(v, base, upper)| <= BUFFER_SIZE
    requires HasPrefix(v, base, precision, width, flags) && !BinaryZero(v, base, style)
    requires precision <= BUFFER_SIZE && (ZeroFilled(style) ==> width <= BUFFER_SIZE)
    ensures var d := Digits(v, base, flags).0;
      var pre := StdPrefix(v, base, upper, StdDigits(v, base, upper, style), style);
      && pre == (if base == 8 then [48] else [48, Mark(base, flags)]) && base != 10
      && (base == 8 ==> precision <= |d| && (ZeroFilled(style) ==> width <= |d|))
  {
    var d := Digits(v, base, flags).0;
    DigitsShape(v, base, precision, flags, width, upper, style);
    BodyLengthIs(v, false, base, precision, width, flags);
    if base == 8 {
      assert precision <= |d|;
      assert Repeat(48, precision - |d|) == [];
      assert [] + Reverse(d) == Reverse(d);
      if v != 0 {
        NumeralStart(v, base, upper);
      }
    }
  }

  /** The field around digits without a prefix. */
  lemma PlainField(sign: seq<Byte>, r: seq<Byte>, z: nat, net: nat, precision: nat, flags: Flags, upper: bool,
                   style: Style)
    requires Means(flags, precision, style.width, upper, style)
    requires net == if ZeroFilled(style) && style.width > 0 && sign != [] then style.width - 1 else style.width
    requires |r| + z == BodyLength(|r|, precision, net, flags) && |sign| <= 1
    requires |r| <= BUFFER_SIZE && precision <= BUFFER_SIZE && (ZeroFilled(style) ==> net <= BUFFER_SIZE)
    ensures Justified(sign + (Repeat(48, z) + r), net, flags)
         == StdField(sign, Repeat(48, precision - |r|) + r, style)
  {
    var digits := Repeat(48, precision - |r|) + r;
    if ZeroFilled(style) {
      assert digits == r;
      assert z == Max(net - |r|, 0);
      var room := style.width - |sign| - |r|;
      assert Repeat(48, room) == Repeat(48, z);
    } else {
      assert z == Max(precision - |r|, 0);
      assert Repeat(48, precision - |r|) == Repeat(48, z);
    }
  }

  /** The field of an octal number whose prefix is one of the zeros that fill it. */
  lemma OctalField(r: seq<Byte>, z: nat, precision: nat, flags: Flags, upper: bool, style: Style)
    requires Means(flags, precision, style.width, upper, style) && ZeroFilled(style)
    requires |r| < style.width <= BUFFER_SIZE && |r| + z == BodyLength(|r|, precision, style.width, flags)
    ensures Justified([] + (Repeat(48, z) + r), style.width, flags)
         == StdField([48], Repeat(48, precision - |r|) + r, style)
  {
    assert precision == 0 && Repeat(48, precision - |r|) + r == r;
    assert z == style.width - |r|;
    RepeatMore(48, z - 1);
    assert [48] + (Repeat(48, z - 1) + r) == Repeat(48, z) + r == [] + (Repeat(48, z) + r);
  }

  /** How many zeros stand between a prefix and the digits. */
  lemma KeptLength(v: nat, base: nat, precision: nat, width: nat, flags: Flags, upper: bool, style: Style)
    requires Handed(false, base, precision, width, flags, upper, style) && base != 10
    requires precision <= BUFFER_SIZE && (ZeroFilled(style) ==> width <= BUFFER_SIZE)
    requires base == 8 ==>
      var n := |Digits(v, base, flags).0|; precision <= n && (ZeroFilled(style) ==> width <= n)
    ensures var n := |Digits(v, base, flags).0|;
      |Kept(v, base, precision, width, flags)| - n
        == if base == 8 then 0 else if ZeroFilled(style) then Max(width - 2 - n, 0) else Max(precision - n, 0)
  {
    BodyLengthIs(v, false, base, precision, width, flags);
  }

  lemma PrefixField(pre: seq<Byte>, r: seq<Byte>, z: nat, precision: nat, flags: Flags, upper: bool, style: Style)
    requires Means(flags, precision, style.width, upper, style)
    requires if ZeroFilled(style) then z == Max(style.width - |pre| - |r|, 0) else z == Max(precision - |r|, 0)
    ensures Justified(pre + (Repeat(48, z) + r), style.width, flags)
         == StdField(pre, Repeat(48, precision - |r|) + r, style)
  {
    var digits := Repeat(48, precision - |r|) + r;
    if ZeroFilled(style) {
      assert digits == r;
      assert Repeat(48, style.width - |pre| - |r|) == Repeat(48, z);
    } else {
      assert Repeat(48, precision - |r|) == Repeat(48, z);
    }
  }

  lemma FitsBounds(v: nat, negative: bool, base: nat, precision: nat, flags: Flags, width: nat, upper: bool,
                   style: Style)
    requires IsBase(base) && Means(flags, precision, width, upper, style) && Fits(v, negative, base, upper, style)
    ensures |Numeral(v, base, upper)| <= |StdDigits(v, base, upper, style)| <= BUFFER_SIZE && precision <= BUFFER_SIZE
    ensures |Digits(v, base, flags).0| <= BUFFER_SIZE
  {
  }

  lemma OctalFits(v: nat, precision: nat, width: nat, flags: Flags, upper: bool, style: Style)
    requires Handed(false, 8, precision, width, flags, upper, style) && Fits(v, false, 8, upper, style)
    requires !HasPrefix(v, 8, precision, width, flags) && PrefixInFill(v, 8, |Digits(v, 8, flags).0|, style)
    ensures Text(v, false, 8, precision, width, flags) == StdText(v, false, 8, upper, style)
  {
    FitsBounds(v, false, 8, precision, flags, width, upper, style);
    DigitsShape(v, 8, precision, flags, width, upper, style);
    var z := PlainCore(v, false, 8, precision, width, flags);
    NoPrefix(v, 8, precision, width, flags, upper, style);
    OctalField(Reverse(Digits(v, 8, flags).0), z, precision, flags, upper, style);
    assert StdFront(v, false, 8, upper, style) == [48];
  }

  /** What stands before the digits when there is no prefix. */
  lemma SignOnly(v: nat, negative: bool, base: nat, precision: nat, width: nat, flags: Flags, upper: bool,
                 style: Style)
    requires Handed(negative, base, precision, width, flags, upper, style) && |Numeral(v, base, upper)| <= BUFFER_SIZE
    requires negative || !HasPrefix(v, base, precision, width, flags)
    requires !PrefixInFill(v, base, |Digits(v, base, flags).0|, style)
    ensures StdFront(v, negative, base, upper, style) == StdSign(negative, style)
  {
    if !negative {
      NoPrefix(v, base, precision, width, flags, upper, style);
    }
  }

  /** The sign has room in the buffer. */
  lemma SignFits(v: nat, negative: bool, base: nat, precision: nat, width: nat, flags: Flags, upper: bool,
                 style: Style)
    requires Handed(negative, base, precision, width, flags, upper, style) && Fits(v, negative, base, upper, style)
    requires StdFront(v, negative, base, upper, style) == StdSign(negative, style)
    ensures SignOf(Body(v, negative, base, precision, width, flags), negative, flags) == StdSign(negative, style)
  {
    FitsBounds(v, negative, base, precision, flags, width, upper, style);
    DigitsShape(v, base, precision, flags, width, upper, style);
    BodyLengthIs(v, negative, base, precision, width, flags);
  }

  lemma PlainFits(v: nat, negative: bool, base: nat, precision: nat, width: nat, flags: Flags, upper: bool,
                  style: Style)
    requires Handed(negative, base, precision, width, flags, upper, style) && Fits(v, negative, base, upper, style)
    requires negative || !HasPrefix(v, base, precision, width, flags)
    ensures Text(v, negative, base, precision, width, flags) == StdText(v, negative, base, upper, style)
  {
    var r := Reverse(Digits(v, base, flags).0);
    FitsBounds(v, negative, base, precision, flags, width, upper, style);
    if PrefixInFill(v, base, |r|, style) {
      OctalFits(v, precision, width, flags, upper, style);
    } else {
      SignOnly(v, negative, base, precision, width, flags, upper, style);
      SignFits(v, negative, base, precision, width, flags, upper, style);
      DigitsShape(v, base, precision, flags, width, upper, style);
      var z := PlainCore(v, negative, base, precision, width, flags);
      PlainField(StdSign(negative, style), r, z, NetWidth(negative, width, flags), precision, flags, upper, style);
    }
  }

  lemma PrefixFits(v: nat, base: nat, precision: nat, width: nat, flags: Flags, upper: bool, style: Style)
    requires Handed(false, base, precision, width, flags, upper, style) && Fits(v, false, base, upper, style)
    requires HasPrefix(v, base, precision, width, flags) && !BinaryZero(v, base, style)
    ensures Text(v, false, base, precision, width, flags) == StdText(v, false, base, upper, style)
  {
    FitsBounds(v, false, base, precision, flags, width, upper, style);
    DigitsShape(v, base, precision, flags, width, upper, style);
    HasPrefixToo(v, base, precision, width, flags, upper, style);
    var z := PrefixCore(v, base, precision, width, flags);
    var r := Reverse(Digits(v, base, flags).0);
    var pre := StdPrefix(v, base, upper, StdDigits(v, base, upper, style), style);
    assert StdFront(v, false, base, upper, style) == pre;
    KeptLength(v, base, precision, width, flags, upper, style);
    assert PrefixOf(Kept(v, base, precision, width, flags), base, flags) == pre;
    PrefixField(pre, r, z, precision, flags, upper, style);
  }

  // ---------------------------------------------------------------- where they differ

  lemma {:induction false} NumeralChars(v: nat, base: nat, upper: bool)
    requires IsBase(base)
    ensures forall k :: 0 <= k < |Numeral(v, base, upper)| ==> Numeral(v, base, upper)[k] >= 48
    decreases v
  {
    DivisionStep(v, base);
    if v != 0 {
      NumeralChars(v / base, base, upper);
    }
  }

  lemma DigitChars(v: nat, base: nat, upper: bool, style: Style)
    requires IsBase(base)
    ensures var d := StdDigits(v, base, upper, style); forall k :: 0 <= k < |d| ==> d[k] >= 48
  {
    NumeralChars(v, base, upper);
  }

  /** What the code prints is at most 32 characters and blanks. */
  lemma ShortCore(v: nat, negative: bool, base: nat, precision: nat, width: nat, flags: Flags) returns (core: seq<Byte>)
    ensures |core| <= BUFFER_SIZE && Text(v, negative, base, precision, width, flags)
         == Justified(core, NetWidth(negative, width, flags), flags)
  {
    var d, f := Digits(v, base, flags).0, Digits(v, base, flags).1;
    core := Reverse(Finalized(d, negative, base, precision, NetWidth(negative, width, f), f));
  }

  /** A text of more than 32 characters and one of at most 32 differ, in whatever field. */
  lemma FieldsDiffer(core: seq<Byte>, front: seq<Byte>, digits: seq<Byte>, precision: nat, net: nat, flags: Flags,
                     upper: bool, style: Style)
    requires Means(flags, precision, style.width, upper, style) && |core| <= BUFFER_SIZE
    requires !ZeroFilled(style) ==> net == style.width
    requires |front| + |digits| > BUFFER_SIZE && digits != [] && forall k :: 0 <= k < |digits| ==> digits[k] >= 48
    requires if |front| > 0 && front[0] == 32 then |front| == 1 && (style.left || ZeroFilled(style)
                  || style.width <= BUFFER_SIZE || |digits| > BUFFER_SIZE) else true
    ensures Justified(core, net, flags) != StdField(front, digits, style)
  {
    var n := |front| + |digits|;
    var x, y := Justified(core, net, flags), StdField(front, digits, style);
    if ZeroFilled(style) {
      assert |x| < |y|;
    } else if style.width < n {
      assert |x| < |y|;
    } else if style.left {
      assert y[n - 1] == digits[|digits| - 1];
      assert x[n - 1] == 32;
    } else {
      var at := if |front| > 0 && front[0] == 32 then style.width - n + 1 else style.width - n;
      assert x[at] == 32;
      assert y[at] == (front + digits)[at - (style.width - n)];
    }
  }

  /** The sign is a blank that does not fit the buffer, and the field has blanks before it anyway. */
  predicate BlankSign(v: nat, negative: bool, base: nat, upper: bool, style: Style)
    requires 2 <= base <= 36
  {
    && StdSign(negative, style) == [' ' as int] && |StdDigits(v, base, upper, style)| == BUFFER_SIZE
    && !style.left && !ZeroFilled(style) && style.width > BUFFER_SIZE
  }

  lemma TooLong(v: nat, negative: bool, base: nat, precision: nat, width: nat, flags: Flags, upper: bool, style: Style)
    requires Handed(negative, base, precision, width, flags, upper, style)
    requires !Fits(v, negative, base, upper, style) && !BlankSign(v, negative, base, upper, style)
    ensures Text(v, negative, base, precision, width, flags) != StdText(v, negative, base, upper, style)
  {
    var front, digits := StdFront(v, negative, base, upper, style), StdDigits(v, base, upper, style);
    var core := ShortCore(v, negative, base, precision, width, flags);
    DigitChars(v, base, upper, style);
    if |front| + |digits| <= BUFFER_SIZE {
      assert |StdText(v, negative, base, upper, style)| >= style.width;
    } else {
      FieldsDiffer(core, front, digits, precision, NetWidth(negative, width, flags), flags, upper, style);
    }
  }

  lemma BlankBefore(digits: seq<Byte>, width: nat)
    requires width > 32
    ensures Repeat(32, width - 33) + ([32] + digits) == Repeat(32, width - 32) + digits
  {
  }

  lemma NoRoomForSign(v: nat, negative: bool, base: nat, precision: nat, width: nat, flags: Flags, upper: bool,
                      style: Style)
    requires Handed(negative, base, precision, width, flags, upper, style)
    requires BlankSign(v, negative, base, upper, style)
    ensures Text(v, negative, base, precision, width, flags)
         == Justified([] + StdDigits(v, base, upper, style), width, flags)
  {
    DigitsShape(v, base, precision, flags, width, upper, style);
    var r := Reverse(Digits(v, base, flags).0);
    var z := PlainCore(v, negative, base, precision, width, flags);
    assert Repeat(48, precision - |r|) == Repeat(48, z);
  }

  lemma BlankSignSame(v: nat, negative: bool, base: nat, precision: nat, width: nat, flags: Flags, upper: bool,
                      style: Style)
    requires Handed(negative, base, precision, width, flags, upper, style)
    requires BlankSign(v, negative, base, upper, style)
    ensures Text(v, negative, base, precision, width, flags) == StdText(v, negative, base, upper, style)
  {
    var digits := StdDigits(v, base, upper, style);
    SignOnly(v, negative, base, precision, width, flags, upper, style);
    NoRoomForSign(v, negative, base, precision, width, flags, upper, style);
    assert [] + digits == digits;
    BlankBefore(digits, width);
  }

  lemma JustifiedKeeps(core: seq<Byte>, width: nat, flags: Flags, c: Byte)
    requires c in core
    ensures c in Justified(core, width, flags)
  {
  }

  /** The standard has no letter for a zero. */
  lemma ZeroHasNoMark(upper: bool, style: Style)
    requires style.precision.Some?
    ensures 98 !in StdText(0, false, 2, upper, style)
  {
    assert Numeral(0, 2, upper) == [];
    var digits := StdDigits(0, 2, upper, style);
    assert forall k :: 0 <= k < |digits| ==> digits[k] == 48;
    assert 98 !in StdFront(0, false, 2, upper, style) && 98 !in digits;
  }

  lemma BinaryZeroDiffers(v: nat, precision: nat, width: nat, flags: Flags, upper: bool, style: Style)
    requires Handed(false, 2, precision, width, flags, upper, style) && BinaryZero(v, 2, style)
    requires precision < BUFFER_SIZE
    ensures Text(v, false, 2, precision, width, flags) != StdText(v, false, 2, upper, style)
  {
    var z := PrefixCore(v, 2, precision, width, flags);
    BodyLengthIs(v, false, 2, precision, width, flags);
    var pre := PrefixOf(Kept(v, 2, precision, width, flags), 2, flags);
    assert 98 in pre;
    JustifiedKeeps(pre + (Repeat(48, z) + Reverse(Digits(v, 2, flags).0)), width, flags, 98);
    ZeroHasNoMark(upper, style);
  }

  lemma BinaryZeroFull(v: nat, precision: nat, width: nat, flags: Flags, upper: bool, style: Style)
    requires Handed(false, 2, precision, width, flags, upper, style) && BinaryZero(v, 2, style)
    requires precision == BUFFER_SIZE
    ensures Text(v, false, 2, precision, width, flags) == StdText(v, false, 2, upper, style)
  {
    var z := PrefixCore(v, 2, precision, width, flags);
    BodyLengthIs(v, false, 2, precision, width, flags);
    assert Numeral(v, 2, upper) == [];
    assert Reverse(Digits(v, 2, flags).0) == [];
    assert PrefixOf(Kept(v, 2, precision, width, flags), 2, flags) == [];
    assert StdFront(v, false, 2, upper, style) == [];
  }

  /**
   A conversion prints the text of the standard if and only if that text, blanks apart, fits the
   buffer of 32 characters and is not a binary zero behind `0b`; or if all it loses is a blank
   for the sign in a field that has a blank there anyway.
   */
  lemma StandardIff(v: nat, negative: bool, base: nat, precision: nat, width: nat, flags: Flags, upper: bool,
                    style: Style)
    requires Handed(negative, base, precision, width, flags, upper, style)
    ensures Text(v, negative, base, precision, width, flags) == StdText(v, negative, base, upper, style) <==>
      || (Fits(v, negative, base, upper, style) && !(BinaryZero(v, base, style) && precision < BUFFER_SIZE))
      || BlankSign(v, negative, base, upper, style)
  {
    if BlankSign(v, negative, base, upper, style) {
      BlankSignSame(v, negative, base, precision, width, flags, upper, style);
    } else if !Fits(v, negative, base, upper, style) {
      TooLong(v, negative, base, precision, width, flags, upper, style);
    } else if BinaryZero(v, base, style) {
      FitsBounds(v, negative, base, precision, flags, width, upper, style);
      if precision < BUFFER_SIZE {
        BinaryZeroDiffers(v, precision, width, flags, upper, style);
      } else {
        BinaryZeroFull(v, precision, width, flags, upper, style);
      }
    } else if negative || !HasPrefix(v, base, precision, width, flags) {
      PlainFits(v, negative, base, precision, width, flags, upper, style);
    } else {
      PrefixFits(v, base, precision, width, flags, upper, style);
    }
  }
}
