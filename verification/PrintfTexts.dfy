/**
 What a format prints, from its characters and its arguments: the flags, width and precision
 that each directive spells, the size its length letters name, and what its last letter makes
 of the argument.
 */
module PrintfTexts {
  import opened Arith
  import opened Common
  import opened Format
  import opened PrintInteger
  import opened PrintParse
  import opened PrintStandard
  import opened Printf
  import opened Strtol
  import StrtolTexts

  // ---------------------------------------------------------------- what a directive says

  /** The bits of an integer argument, by the length letters: `hh`, `h`, none, and any other. */
  function Bits(length: seq<Byte>): nat {
    if length == ['h' as int, 'h' as int] then 8
    else if length == ['h' as int] then 16
    else if length == [] then 32
    else 64
  }

  function TwoTo(bits: nat): (m: int)
    ensures m >= 256
  {
    if bits == 8 then 0x100 else if bits == 16 then 0x1_0000
    else if bits == 32 then 0x1_0000_0000 else 0x1_0000_0000_0000_0000
  }

  /** The signed integer of so many bits that `n` wraps around to. */
  ghost predicate WrapsTo(n: int, bits: nat, v: int) {
    -(TwoTo(bits) / 2) <= v < TwoTo(bits) / 2 && (v - n) % TwoTo(bits) == 0
  }

  function Wrapped(n: int, bits: nat): int {
    var u := n % TwoTo(bits);
    if u < TwoTo(bits) / 2 then u else u - TwoTo(bits)
  }

  /** It is the only one. */
  lemma WrappedIs(n: int, bits: nat, v: int)
    ensures WrapsTo(n, bits, v) <==> v == Wrapped(n, bits)
  {
    var m := TwoTo(bits);
    var u, q := n % m, n / m;
    var w := Wrapped(n, bits);
    DivModUnique(w - n, m, (if u < m / 2 then 0 else -1) - q, 0);
    if WrapsTo(n, bits, v) {
      var k := (v - n) / m;
      assert v == n + k * m == (q + k) * m + u;
      if v >= 0 {
        DivModUnique(v, m, 0, v);
        DivModUnique(v, m, q + k, u);
      } else {
        DivModUnique(v, m, -1, v + m);
        DivModUnique(v, m, q + k, u);
      }
    }
  }

  function DigitsOf(t: seq<Byte>): (d: seq<nat>)
    ensures |d| == |t| && forall i :: 0 <= i < |t| ==> d[i] == if t[i] >= 48 then t[i] - 48 else 0
  {
    seq(|t|, i requires 0 <= i < |t| => if t[i] >= 48 then t[i] - 48 else 0)
  }

  /** A decimal number as it is written, in 32 bits. */
  function WrittenNumber(t: seq<Byte>): nat {
    StrtolTexts.FromDigits(DigitsOf(t), 10) % 0x1_0000_0000
  }

  predicate IsStar(t: seq<Byte>) { t == ['*' as int] }

  /** The arguments left after `*` for the width. */
  function AfterStar(p: Spec, args: seq<Arg>): seq<Arg> {
    if IsStar(p.width) then Others(args) else args
  }

  /** The arguments from the one that is converted on. */
  function Operands(p: Spec, args: seq<Arg>): seq<Arg> {
    if p.precision == ['.' as int, '*' as int] then Others(AfterStar(p, args)) else AfterStar(p, args)
  }

  /** A negative precision counts as 0. */
  function PrecisionOf(p: Spec, args: seq<Arg>): Option<nat> {
    var n := Wrapped(Next(AfterStar(p, args)), 32);
    if p.precision == [] then None
    else if p.precision == ['.' as int, '*' as int] then Some(if n > 0 then n else 0)
    else Some(WrittenNumber(p.precision[1..]))
  }

  /** The style that a directive spells; a negative width means left justification. */
  function StyleOf(p: Spec, args: seq<Arg>): Style {
    var w := Wrapped(Next(args), 32);
    Style('-' as int in p.flags || (IsStar(p.width) && w < 0), '+' as int in p.flags, ' ' as int in p.flags,
          '#' as int in p.flags, '0' as int in p.flags,
          if IsStar(p.width) then Magnitude(w) else WrittenNumber(p.width), PrecisionOf(p, args))
  }

  // ---------------------------------------------------------------- what its last letter makes of the argument

  predicate IsConversion(c: Byte) {
    c in {'d' as int, 'i' as int, 'u' as int, 'o' as int, 'x' as int, 'X' as int, 'b' as int}
  }

  predicate SignedLetter(c: Byte) { c == 'd' as int || c == 'i' as int }

  function LetterBase(c: Byte): nat {
    if c == 'o' as int then 8 else if c == 'x' as int || c == 'X' as int then 16 else if c == 'b' as int then 2 else 10
  }

  /** The number that the letter makes of the argument. */
  function Operand(p: Spec, args: seq<Arg>): int {
    var n := Next(Operands(p, args));
    if SignedLetter(p.c) then Wrapped(n, Bits(p.length)) else n % TwoTo(Bits(p.length))
  }

  /** `#` is for the bases other than ten, a sign for the signed letters. */
  function LetterStyle(c: Byte, style: Style): Style {
    style.(alt := style.alt && LetterBase(c) != 10,
           plus := style.plus && SignedLetter(c), space := style.space && SignedLetter(c))
  }

  function InField(text: seq<Byte>, style: Style): seq<Byte> {
    if style.left then text + Repeat(' ' as int, style.width - |text|)
    else Repeat(' ' as int, style.width - |text|) + text
  }

  function FirstBytes(text: seq<Byte>, precision: Option<nat>): seq<Byte> {
    if precision.Some? && precision.value < |text| then text[..precision.value] else text
  }

  /** `(null)`, not filled with blanks if zeros are asked for. */
  function NullText(style: Style): seq<Byte> {
    var t := ['(' as int, 'n' as int, 'u' as int, 'l' as int, 'l' as int, ')' as int];
    if !style.left && style.zero then t else InField(t, style)
  }

  /** `0x` and 16 digits, or as many as there are if it is to stand on the left of 18 characters; `(nil)` for 0. */
  function PointerText(address: nat, style: Style): seq<Byte> {
    var wide := style.(alt := true, zero := true, width := 18);
    var nil := ['(' as int, 'n' as int, 'i' as int, 'l' as int, ')' as int];
    if address != 0 then StdText(address, false, 16, false, wide) else if style.left then InField(nil, wide) else nil
  }

  /** What a directive shows. */
  function Expected(p: Spec, args: seq<Arg>): seq<Byte> {
    var style, rest := StyleOf(p, args), Operands(p, args);
    if IsConversion(p.c) then
      var v := Operand(p, args);
      StdText(Magnitude(v), v < 0, LetterBase(p.c), p.c == 'X' as int, LetterStyle(p.c, style))
    else if p.c == 'c' as int then InField([Next(rest) % 256], style)
    else if p.c == 's' as int then
      if Next(rest) == 0 then NullText(style) else InField(FirstBytes(NextText(rest), style.precision), style)
    else if p.c in {'f' as int, 'F' as int, 'e' as int, 'E' as int, 'g' as int, 'G' as int} then NextText(rest)
    else if p.c == 'p' as int then PointerText(Next(rest) % 0x1_0000_0000_0000_0000, style)
    else if p.c == 'n' as int then []
    else [p.c]
  }

  /** The letters that take an argument. */
  predicate TakesOne(c: Byte) {
    IsConversion(c) || c in {'c' as int, 's' as int, 'p' as int, 'n' as int, 'f' as int, 'F' as int, 'e' as int,
                             'E' as int, 'g' as int, 'G' as int}
  }

  /**
   An integer that the code prints as the standard has it, a string that is not too long to be
   counted, an address without sign and precision.
   */
  predicate Regular(p: Spec, args: seq<Arg>) {
    var style, rest := StyleOf(p, args), Operands(p, args);
    if IsConversion(p.c) then
      var v, base, upper, s := Operand(p, args), LetterBase(p.c), p.c == 'X' as int, LetterStyle(p.c, style);
      || (Fits(Magnitude(v), v < 0, base, upper, s)
          && !(BinaryZero(Magnitude(v), base, s) && s.precision.value < BUFFER_SIZE))
      || BlankSign(Magnitude(v), v < 0, base, upper, s)
    else if p.c == 'p' as int then style.precision.None? && !style.plus && !style.space
    else p.c == 's' as int && Next(rest) != 0 ==> style.precision.Some? || |NextText(rest)| <= INT_MAX
  }

  // ---------------------------------------------------------------- the code does it

  lemma BitsAre(length: seq<Byte>)
    requires LengthText(length)
    ensures Modulus(LengthOf(length)) == TwoTo(Bits(length))
  {
  }

  lemma DecimalIs(t: seq<Byte>)
    requires Decimals(t)
    ensures Decimal(t) == WrittenNumber(t)
  {
    StrtolTexts.SpelledValue(t, DigitsOf(t), 10);
  }

  /** The request of the code and the style that is spelled. */
  predicate Agrees(r: Request, style: Style, length: seq<Byte>, args: seq<Arg>) {
    && r.flags.left == style.left && r.flags.plus == style.plus && r.flags.space == style.space
    && r.flags.hash == style.alt && r.flags.zeropad == style.zero && !r.flags.uppercase && !r.flags.pointer
    && r.flags.precision == style.precision.Some? && r.width == style.width
    && r.precision == (if style.precision.Some? then style.precision.value else 0)
    && Modulus(r.length) == TwoTo(Bits(length)) && r.args == args
  }

  lemma RequestIs(p: Spec, args: seq<Arg>)
    requires ValidSpec(p)
    ensures Agrees(RequestOf(p, args), StyleOf(p, args), p.length, Operands(p, args))
  {
    BitsAre(p.length);
    if !IsStar(p.width) {
      DecimalIs(p.width);
    }
    if p.precision != [] && p.precision[1..] != [42] {
      DecimalIs(p.precision[1..]);
    }
    assert p.precision == [46, 42] <==> p.precision != [] && p.precision[0] == 46 && p.precision[1..] == [42];
  }

  lemma FlagsHanded(c: Byte, r: Request, style: Style, length: seq<Byte>)
    requires Agrees(r, style, length, r.args) && IsConversion(c)
    ensures Means(IntegerFlags(c, r.flags), r.precision, r.width, c == 'X' as int, LetterStyle(c, style))
    ensures IsInteger(c) && IsSigned(c) == SignedLetter(c) && BaseOf(c) == LetterBase(c) && IsBase(LetterBase(c))
    ensures LetterBase(c) == 10 ==> !IntegerFlags(c, r.flags).hash
    ensures LetterBase(c) != 10 ==> !IntegerFlags(c, r.flags).plus && !IntegerFlags(c, r.flags).space && !IsSigned(c)
  {
  }

  lemma NumberHanded(r: Request, length: seq<Byte>)
    requires Modulus(r.length) == TwoTo(Bits(length))
    ensures SignedValue(Next(r.args), r.length) == Wrapped(Next(r.args), Bits(length))
    ensures Unsigned(Next(r.args), r.length) == Next(r.args) % TwoTo(Bits(length))
  {
  }

  /** What reaches the conversion. */
  ghost predicate ItemIs(item: Item, n: int, c: Byte, style: Style) {
    && item.Integer? && item.value == Magnitude(n) && item.negative == (n < 0) && item.base == LetterBase(c)
    && Handed(item.negative, item.base, item.precision, item.width, item.flags, c == 'X' as int, LetterStyle(c, style))
  }

  /** The number and the flags that reach the conversion. */
  lemma IntegerHanded(c: Byte, r: Request, style: Style, length: seq<Byte>, n: int)
    requires Agrees(r, style, length, r.args) && IsConversion(c)
    requires n == if SignedLetter(c) then Wrapped(Next(r.args), Bits(length))
                  else Next(r.args) % TwoTo(Bits(length))
    ensures ItemIs(ItemOf(c, r), n, c, style)
  {
    FlagsHanded(c, r, style, length);
    NumberHanded(r, length);
  }

  lemma ItemStandard(item: Item, n: int, c: Byte, style: Style)
    requires ItemIs(item, n, c, style)
    ensures var s := LetterStyle(c, style); var base, upper := LetterBase(c), c == 'X' as int;
      Printed(item) == StdText(Magnitude(n), n < 0, base, upper, s) <==>
      || (Fits(Magnitude(n), n < 0, base, upper, s)
          && !(BinaryZero(Magnitude(n), base, s) && s.precision.value < BUFFER_SIZE))
      || BlankSign(Magnitude(n), n < 0, base, upper, s)
  {
    StandardIff(item.value, item.negative, item.base, item.precision, item.width, item.flags, c == 'X' as int,
                LetterStyle(c, style));
  }

  /** An integer directive prints the text of the standard for its argument, just if it is regular. */
  lemma IntegerDirective(p: Spec, args: seq<Arg>)
    requires ValidSpec(p) && IsConversion(p.c)
    ensures Printed(ItemOf(p.c, RequestOf(p, args))) == Expected(p, args) <==> Regular(p, args)
  {
    var r, style := RequestOf(p, args), StyleOf(p, args);
    RequestIs(p, args);
    IntegerHanded(p.c, r, style, p.length, Operand(p, args));
    ItemStandard(ItemOf(p.c, r), Operand(p, args), p.c, style);
  }

  lemma NullIs(width: nat, flags: Flags, style: Style)
    requires flags.left == style.left && flags.zeropad == style.zero && width == style.width
    ensures Justified(Reverse(NULL), width, flags) == NullText(style)
  {
    assert Reverse(NULL) == [40, 110, 117, 108, 108, 41];
  }

  lemma StringShown(r: Request, style: Style, length: seq<Byte>)
    requires Agrees(r, style, length, r.args)
    requires Next(r.args) != 0 ==> style.precision.Some? || |NextText(r.args)| <= INT_MAX
    ensures Printed(StringItem(r))
         == if Next(r.args) == 0 then NullText(style) else InField(FirstBytes(NextText(r.args), style.precision), style)
  {
    if Next(r.args) == 0 {
      NullIs(r.width, r.flags, style);
    }
  }

  lemma CharShown(r: Request, style: Style, length: seq<Byte>)
    requires Agrees(r, style, length, r.args)
    ensures Printed(ItemOf('c' as int, r)) == InField([Next(r.args) % 256], style)
  {
  }

  lemma SameFinalized(buf: seq<Byte>, precision: nat, net: nat, f: Flags, g: Flags)
    requires |buf| <= BUFFER_SIZE && f.pointer && g == f.(pointer := false, hash := true)
    ensures Finalized(buf, false, 16, precision, net, f) == Finalized(buf, false, 16, precision, net, g)
  {
    var padded := Padded(buf, precision, net, f);
    assert padded == Padded(buf, precision, net, g);
    var taken := TakeBack(padded, |buf|, 16, precision, net, f);
    assert taken == TakeBack(padded, |buf|, 16, precision, net, g);
    assert Prefixed(taken, 16, f) == Prefixed(taken, 16, g);
    var b := Prefixed(taken, 16, f);
    assert Signed(b, false, f) == Signed(b, false, g);
  }

  lemma SameConversion(buf: seq<Byte>, precision: nat, width: nat, f: Flags, g: Flags)
    requires |buf| <= BUFFER_SIZE && f.pointer && g == f.(pointer := false, hash := true)
    ensures Conversion(buf, false, 16, precision, width, f) == Conversion(buf, false, 16, precision, width, g)
  {
    var net := NetWidth(false, width, f);
    SameFinalized(buf, precision, net, f, g);
    assert NetWidth(false, width, g) == net;
  }

  /** The flag of a pointer does what `#` does, for a number other than 0. */
  lemma PointerAsHash(v: nat, precision: nat, width: nat, flags: Flags)
    requires v != 0
    ensures Text(v, false, 16, precision, width, flags.(pointer := true))
         == Text(v, false, 16, precision, width, flags.(pointer := false, hash := true))
  {
    var f, g := flags.(pointer := true), flags.(pointer := false, hash := true);
    SameConversion(RevDigits(v, 16, f.uppercase, BUFFER_SIZE), precision, width, f, g);
  }

  lemma {:induction false} HexNumeralLength(v: nat)
    requires v < 0x1_0000_0000_0000_0000
    ensures |Numeral(v, 16, false)| <= 16
  {
    NumeralReversed(v, 16, false, BUFFER_SIZE);
    Powers16();
    DigitsLength(v, 16, false, BUFFER_SIZE, 16);
  }

  lemma AddressShown(v: nat, flags: Flags, style: Style)
    requires 0 < v < 0x1_0000_0000_0000_0000 && flags.pointer
    requires Means(flags.(pointer := false, hash := true), 0, 18, false, style)
    requires style.precision.None? && !style.plus && !style.space && style.zero
    ensures Text(v, false, 16, 0, 18, flags) == StdText(v, false, 16, false, style)
  {
    PointerAsHash(v, 0, 18, flags);
    assert flags.(pointer := true) == flags;
    HexNumeralLength(v);
    StandardIff(v, false, 16, 0, 18, flags.(pointer := false, hash := true), false, style);
  }

  lemma NilIs(flags: Flags, style: Style)
    requires flags.left == style.left && flags.zeropad
    ensures Justified(Reverse(NIL), 18, flags) == PointerText(0, style)
  {
    assert Reverse(NIL) == [40, 110, 105, 108, 41];
  }

  lemma PointerFlagsMean(r: Request, style: Style, length: seq<Byte>)
    requires Agrees(r, style, length, r.args) && style.precision.None? && !style.plus && !style.space
    ensures Means(r.flags.(zeropad := true, pointer := false, hash := true), 0, 18, false,
                  style.(alt := true, zero := true, width := 18))
  {
  }

  lemma PointerShown(r: Request, style: Style, length: seq<Byte>)
    requires Agrees(r, style, length, r.args) && style.precision.None? && !style.plus && !style.space
    ensures Printed(PointerItem(r)) == PointerText(Next(r.args) % 0x1_0000_0000_0000_0000, style)
  {
    var v := Next(r.args) % 0x1_0000_0000_0000_0000;
    var flags := r.flags.(zeropad := true, pointer := true);
    if v == 0 {
      NilIs(flags, style);
    } else {
      PointerFlagsMean(r, style, length);
      AddressShown(v, flags, style.(alt := true, zero := true, width := 18));
    }
  }

  lemma OtherDirective(p: Spec, args: seq<Arg>)
    requires ValidSpec(p) && !IsConversion(p.c) && Regular(p, args)
    ensures Printed(ItemOf(p.c, RequestOf(p, args))) == Expected(p, args)
  {
    var r, style := RequestOf(p, args), StyleOf(p, args);
    RequestIs(p, args);
    if p.c == 's' as int {
      StringShown(r, style, p.length);
    } else if p.c == 'c' as int {
      CharShown(r, style, p.length);
    } else if p.c == 'p' as int {
      PointerShown(r, style, p.length);
    }
  }

  lemma ArgumentTaken(p: Spec, args: seq<Arg>)
    requires ValidSpec(p)
    ensures ArgsAfter(p.c, RequestOf(p, args))
         == if TakesOne(p.c) then Others(Operands(p, args)) else Operands(p, args)
  {
    RequestIs(p, args);
  }

  // ---------------------------------------------------------------- whole formats

  /** Regular throughout. */
  predicate AllRegular(pieces: Pieces, args: seq<Arg>) {
    match pieces
    case End => true
    case Plain(_, next) => AllRegular(next, args)
    case Directed(p, next) =>
      && Regular(p, args)
      && AllRegular(next, if TakesOne(p.c) then Others(Operands(p, args)) else Operands(p, args))
  }

  /** The characters of the format, and what its directives show one after the other. */
  function ExpectedAll(pieces: Pieces, args: seq<Arg>): seq<Byte> {
    match pieces
    case End => []
    case Plain(c, next) => [c] + ExpectedAll(next, args)
    case Directed(p, next) =>
      Expected(p, args) + ExpectedAll(next, if TakesOne(p.c) then Others(Operands(p, args)) else Operands(p, args))
  }

  lemma {:induction false} Rendered(pieces: Pieces, args: seq<Arg>)
    requires WellFormed(pieces) && AllRegular(pieces, args)
    ensures Render(Asked(pieces, args)) == ExpectedAll(pieces, args)
    decreases pieces
  {
    match pieces
    case End =>
    case Plain(_, next) => Rendered(next, args);
    case Directed(p, next) =>
      if IsConversion(p.c) {
        IntegerDirective(p, args);
      } else {
        OtherDirective(p, args);
      }
      ArgumentTaken(p, args);
      Rendered(next, if TakesOne(p.c) then Others(Operands(p, args)) else Operands(p, args));
  }

  lemma ReadWhole(pieces: Pieces, args: seq<Arg>)
    requires WellFormed(pieces)
    ensures var s := Written(pieces);
      CString(s) && Complete(s, 0) && Steps(s, 0, args) == Asked(pieces, args)
  {
    var s := Written(pieces);
    WrittenIsString(pieces);
    assert s[0..] == s;
    WellFormedFormat(s, 0, pieces, args);
  }

  /** A well-formed format with regular directives prints what its characters and arguments say. */
  lemma FormatPrints(pieces: Pieces, args: seq<Arg>)
    requires WellFormed(pieces) && AllRegular(pieces, args)
    ensures var s := Written(pieces);
      CString(s) && Complete(s, 0) && Output(s, args) == ExpectedAll(pieces, args)
  {
    ReadWhole(pieces, args);
    Rendered(pieces, args);
  }

  // ---------------------------------------------------------------- one directive, read back

  /** The text does not tell the number, by what the directive spells. */
  predicate Loses(v: int, base: nat, style: Style) {
    var digits := if style.precision.Some? then style.precision.value else if ZeroFilled(style) then style.width else 0;
    var full := if style.precision.Some? then digits >= BUFFER_SIZE else digits > BUFFER_SIZE;
    match base
    case 10 => v < 0 && full
    case 16 => v != 0 && style.alt && style.precision == Some(BUFFER_SIZE - 1)
    case 2 => v >= 0x1_0000_0000 || (0 < v < 0x8000_0000 && style.alt && !full)
    case _ => false
  }

  lemma LosesIs(item: Item, v: int, c: Byte, style: Style)
    requires ItemIs(item, v, c, style)
    ensures Loses(v, LetterBase(c), LetterStyle(c, style)) <==>
      Lossy(item.value, item.negative, item.base, item.precision, item.width, item.flags)
    ensures WithSign(item.value, item.negative) == v
  {
  }

  /** A format of one directive. */
  lemma OneDirective(p: Spec, args: seq<Arg>)
    requires ValidSpec(p)
    ensures var s := Written(Directed(p, Pieces.End));
      CString(s) && Steps(s, 0, args) == Convert(p.c, RequestOf(p, args), Stop)
  {
    ReadWhole(Directed(p, Pieces.End), args);
  }

  lemma OperandHanded(p: Spec, args: seq<Arg>, v: int)
    requires ValidSpec(p) && IsConversion(p.c)
    requires var n := Next(Operands(p, args));
      if SignedLetter(p.c) then WrapsTo(n, Bits(p.length), v) else v == n % TwoTo(Bits(p.length))
    ensures ItemIs(ItemOf(p.c, RequestOf(p, args)), v, p.c, StyleOf(p, args))
  {
    WrappedIs(Next(Operands(p, args)), Bits(p.length), v);
    RequestIs(p, args);
    IntegerHanded(p.c, RequestOf(p, args), StyleOf(p, args), p.length, v);
  }

  /**
   A format of one integer directive: `strtoll` and `strtoull`, in the base of its letter, read
   back the argument, wrapped around to the signed range of its length for `d` and `i` and
   modulo two to its bits for the others, just if the directive loses nothing.
   */
  lemma DirectiveReadBack(p: Spec, args: seq<Arg>, v: int)
    requires ValidSpec(p) && IsConversion(p.c)
    requires var n := Next(Operands(p, args));
      if SignedLetter(p.c) then WrapsTo(n, Bits(p.length), v) else v == n % TwoTo(Bits(p.length))
    ensures var s := Written(Directed(p, Pieces.End));
      && CString(s) && var text := Output(s, args) + [0];
      && CString(text)
      && (Number(text, LetterBase(p.c)) == v <==> !Loses(v, LetterBase(p.c), LetterStyle(p.c, StyleOf(p, args))))
  {
    var r := RequestOf(p, args);
    OneDirective(p, args);
    OperandHanded(p, args, v);
    LosesIs(ItemOf(p.c, r), v, p.c, StyleOf(p, args));
    PrintThenParse(Written(Directed(p, Pieces.End)), args, p.c, r);
  }
}
