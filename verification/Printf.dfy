/**
 `vsnprintf` on a format string and its arguments: what it returns and what it leaves in the
 buffer depend on the unbounded text alone, and integers are handed to their conversion so
 that `strtoll` can read them back.
 */
module Printf {
  import opened Common
  import opened Format
  import opened PrintInteger
  import opened PrintParse
  import opened Strtol

  // ---------------------------------------------------------------- what is printed

  /** One piece of output. */
  datatype Item =
    | Literal(c: Byte)
    | Integer(value: nat, negative: bool, base: nat, precision: nat, width: nat, flags: Flags)
    | Character(c: Byte, width: nat, left: bool)
    | Str(s: Chars, limit: Option<nat>, width: nat, left: bool)
    | Reversed(text: seq<Byte>, width: nat, flags: Flags)
    | Raw(text: seq<Byte>)

  predicate Supported(item: Item) {
    item.Integer? ==> IsBase(item.base)
  }

  /** A text that counts as `l` characters in a field of a given width. */
  function Field(text: seq<Byte>, l: nat, width: nat, left: bool): seq<Byte> {
    if left then text + Repeat(32, width - l) else Repeat(32, width - l) + text
  }

  const INT_MAX: nat := 0x7fff_ffff

  /** Without a precision the length of a string is counted up to `INT_MAX`. */
  function Counted(l: nat, limit: Option<nat>): nat {
    if limit.None? && l > INT_MAX then INT_MAX else l
  }

  function Shown(s: seq<Byte>, limit: Option<nat>): seq<Byte> {
    if limit.Some? && limit.value < |s| then s[..limit.value] else s
  }

  /** What one item prints. */
  function Printed(item: Item): seq<Byte> {
    match item
    case Literal(c) => [c]
    case Integer(v, negative, base, precision, width, flags) => Text(v, negative, base, precision, width, flags)
    case Character(c, width, left) => Field([c], 1, width, left)
    case Str(s, limit, width, left) =>
      var shown := Shown(s, limit);
      Field(shown, Counted(|shown|, limit), width, left)
    case Reversed(text, width, flags) => Justified(Reverse(text), width, flags)
    case Raw(text) => text
  }

  // ---------------------------------------------------------------- what a format asks for

  /** The number base of a specifier. */
  function BaseOf(c: Byte): nat {
    if c == 120 || c == 88 then 16 else if c == 111 then 8 else if c == 98 then 2 else 10
  }

  /** `d` and `i`. */
  predicate IsSigned(c: Byte) { c == 100 || c == 105 }

  predicate IsInteger(c: Byte) {
    IsSigned(c) || c == 117 || c == 120 || c == 88 || c == 111 || c == 98
  }

  /** `f`, `F`, `e`, `E`, `g`, `G`. */
  predicate IsReal(c: Byte) { c == 102 || c == 70 || c == 101 || c == 69 || c == 103 || c == 71 }

  /** Decimals have no alternate form, a precision replaces zero padding, unsigned numbers have no sign. */
  function IntegerFlags(c: Byte, flags: Flags): Flags {
    flags.(
      hash := flags.hash && BaseOf(c) != 10,
      uppercase := c == 88,
      zeropad := flags.zeropad && !flags.precision,
      plus := flags.plus && IsSigned(c),
      space := flags.space && IsSigned(c))
  }

  function IntegerItem(c: Byte, r: Request): Item
  {
    var flags := IntegerFlags(c, r.flags);
    if IsSigned(c) then
      var v := SignedValue(Next(r.args), r.length);
      Integer(Magnitude(v), v < 0, BaseOf(c), r.precision, r.width, flags)
    else Integer(Unsigned(Next(r.args), r.length), false, BaseOf(c), r.precision, r.width, flags)
  }

  const POINTER_WIDTH: nat := 18

  /** `)lin(` and `)llun(`, as the code stores them. */
  const NIL: seq<Byte> := [41, 108, 105, 110, 40]
  const NULL: seq<Byte> := [41, 108, 108, 117, 110, 40]

  function PointerItem(r: Request): Item
  {
    var flags := r.flags.(zeropad := true, pointer := true);
    var address := Unsigned(Next(r.args), Long);
    if address == 0 then Reversed(NIL, POINTER_WIDTH, flags)
    else Integer(address, false, 16, r.precision, POINTER_WIDTH, flags)
  }

  function StringItem(r: Request): Item
  {
    if Next(r.args) == 0 then Reversed(NULL, r.width, r.flags)
    else Str(NextText(r.args), if r.flags.precision then Some(r.precision) else None, r.width, r.flags.left)
  }

  /** What the specifier `c` makes of a request. */
  function ItemOf(c: Byte, r: Request): (item: Item)
    ensures Supported(item)
  {
    if IsInteger(c) then IntegerItem(c, r)
    else if IsReal(c) then Raw(NextText(r.args))
    else match c
      case 99 => Character(Unsigned(Next(r.args), Char), r.width, r.flags.left)
      case 115 => StringItem(r)
      case 112 => PointerItem(r)
      case 110 => Raw([])
      case _ => Literal(c)
  }

  /** Whether a specifier takes an argument, and those left after it. */
  predicate TakesArgument(c: Byte) {
    IsInteger(c) || IsReal(c) || c == 99 || c == 115 || c == 112 || c == 110
  }

  function ArgsAfter(c: Byte, r: Request): seq<Arg> {
    if TakesArgument(c) then Others(r.args) else r.args
  }

  /** What a format does: characters that are copied, and specifiers with what their directives say. */
  datatype Program =
    | Stop
    | Copy(c: Byte, next: Program)
    | Convert(c: Byte, request: Request, next: Program)

  /** The program of a format from `i` on. */
  function Steps(s: seq<Byte>, i: nat, args: seq<Arg>): Program
    requires CString(s) && i < |s|
    decreases |s| - i
  {
    if s[i] == 0 then Stop
    else if s[i] != 37 then Copy(s[i], Steps(s, i + 1, args))
    else if s[i + 1] == 0 then Stop
    else match Parse(s, i + 1, args)
      case Ended => Stop
      case Found(at, r) => Convert(s[at], r, if s[at] == 0 then Stop else Steps(s, at + 1, ArgsAfter(s[at], r)))
  }

  function Render(program: Program): seq<Byte> {
    match program
    case Stop => []
    case Copy(c, next) => [c] + Render(next)
    case Convert(c, r, next) => Printed(ItemOf(c, r)) + Render(next)
  }

  /** All that a format prints. */
  function Output(s: seq<Byte>, args: seq<Arg>): seq<Byte>
    requires CString(s)
  {
    Render(Steps(s, 0, args))
  }

  /** No directive runs into the end of the format with its flags or digits. */
  predicate Complete(s: seq<Byte>, i: nat)
    requires CString(s) && i < |s|
    decreases |s| - i
  {
    if s[i] == 0 then true
    else if s[i] != 37 then Complete(s, i + 1)
    else if s[i + 1] == 0 then true
    else match Parse(s, i + 1, [])
      case Ended => true
      case Found(at, _) => s[at] != 0 && Complete(s, at + 1)
  }

  // ---------------------------------------------------------------- the code

  method PrintChar(out: OutputGadget, c: Byte, width: nat, left: bool)
    requires out.Valid()
    modifies out, out.buffer
    ensures out.Valid() && out.stream == old(out.stream) + Field([c], 1, width, left)
  {
    if !left {
      PutRepeated(out, 32, width - 1);
    }
    out.PutChar(c);
    if left {
      PutRepeated(out, 32, width - 1);
    }
  }

  /** `strnlen_s_` on the array `a`; `None` means that it leaves the array. */
  method BoundedLength(a: seq<Byte>, maxsize: nat) returns (l: Option<nat>)
    ensures l.None? <==> 0 !in a && |a| <= maxsize
    ensures l.Some? ==> l.value <= maxsize && l.value < |a| && 0 !in a[..l.value]
    ensures l.Some? ==> l.value == maxsize || a[l.value] == 0
  {
    var i := 0;
    while i < |a| && a[i] != 0 && i < maxsize
      invariant i <= |a| && i <= maxsize && 0 !in a[..i]
    {
      i := i + 1;
    }
    if i == |a| {
      assert a[..i] == a;
      return None;
    }
    return Some(i);
  }

  /**
   The scans of a string conversion stay inside the array `a`. They read the byte at the
   precision as well, and a precision of 0 does not bound the first of them below `INT_MAX`.
   */
  predicate StaysInside(a: seq<Byte>, limit: Option<nat>) {
    0 in a || (limit.Some? && |a| > if limit.value == 0 then INT_MAX else limit.value)
  }

  /** One byte without a zero and a precision of 1 or of 0: the second byte is read. */
  lemma PrecisionIsPassed(a: seq<Byte>)
    requires a == [65]
    ensures !StaysInside(a, Some(1)) && !StaysInside(a, Some(0))
  {
  }

  /** The text that a string conversion shows ends at `end`. */
  predicate ShownEnd(a: seq<Byte>, limit: Option<nat>, end: nat) {
    && end <= |a| && 0 !in a[..end] && (limit.Some? ==> end <= limit.value)
    && (limit == Some(end) || (end < |a| && a[end] == 0))
  }

  /** Puts the characters of `a` up to its zero or the precision; `end` is `None` where it leaves the array. */
  method PutString(out: OutputGadget, a: seq<Byte>, limit: Option<nat>) returns (end: Option<nat>)
    requires out.Valid()
    modifies out, out.buffer
    ensures out.Valid()
    ensures end.None? <==> 0 !in a && (limit.None? || |a| <= limit.value)
    ensures end.Some? ==> ShownEnd(a, limit, end.value) && out.stream == old(out.stream) + a[..end.value]
  {
    var k := 0;
    while k < |a| && a[k] != 0 && limit != Some(k)
      invariant k <= |a| && 0 !in a[..k] && (limit.Some? ==> k <= limit.value)
      invariant out.Valid() && out.stream == old(out.stream) + a[..k]
    {
      out.PutChar(a[k]);
      assert a[..k + 1] == a[..k] + [a[k]];
      k := k + 1;
    }
    if k == |a| {
      assert a[..k] == a;
      return None;
    }
    return Some(k);
  }

  /** The two scans of a string agree. */
  lemma SameEnd(a: seq<Byte>, limit: Option<nat>, end: nat, l: nat)
    requires ShownEnd(a, limit, end)
    requires var maxsize := if limit.None? || limit.value == 0 then INT_MAX else limit.value;
      l <= maxsize && l < |a| && 0 !in a[..l] && (l == maxsize || a[l] == 0)
    ensures (if limit.Some? && limit.value < l then limit.value else l) == Counted(end, limit)
  {
    assert end < l ==> a[..l][end] == a[end];
    assert l < end ==> a[..end][l] == a[l];
  }

  method PutAll(out: OutputGadget, text: seq<Byte>)
    requires out.Valid()
    modifies out, out.buffer
    ensures out.Valid() && out.stream == old(out.stream) + text
  {
    var k := 0;
    while k < |text|
      invariant k <= |text| && out.Valid() && out.stream == old(out.stream) + text[..k]
    {
      out.PutChar(text[k]);
      assert text[..k + 1] == text[..k] + [text[k]];
      k := k + 1;
    }
    assert text[..|text|] == text;
  }

  /** A string that counts as `l` characters. */
  method PutField(out: OutputGadget, a: seq<Byte>, limit: Option<nat>, l: nat, width: nat, left: bool)
    returns (end: Option<nat>)
    requires out.Valid()
    modifies out, out.buffer
    ensures out.Valid()
    ensures end.None? <==> 0 !in a && (limit.None? || |a| <= limit.value)
    ensures end.Some? ==>
      ShownEnd(a, limit, end.value) && out.stream == old(out.stream) + Field(a[..end.value], l, width, left)
  {
    if !left {
      PutRepeated(out, 32, width - l);
    }
    end := PutString(out, a, limit);
    if left && end.Some? {
      PutRepeated(out, 32, width - l);
    }
  }

  /** The conversion of the string in the array `a`. It stops here where it would leave the array. */
  method PrintString(out: OutputGadget, a: seq<Byte>, limit: Option<nat>, width: nat, left: bool)
    returns (inside: bool, ghost end: nat)
    requires out.Valid()
    modifies out, out.buffer
    ensures out.Valid()
    ensures inside <==> StaysInside(a, limit)
    ensures inside ==>
      ShownEnd(a, limit, end) && out.stream == old(out.stream) + Field(a[..end], Counted(end, limit), width, left)
  {
    var length := BoundedLength(a, if limit.None? || limit.value == 0 then INT_MAX else limit.value);
    if length.None? {
      return false, 0;
    }
    var l := if limit.Some? && limit.value < length.value then limit.value else length.value;
    var last := PutField(out, a, limit, l, width, left);
    if last.None? {
      return false, 0;
    }
    SameEnd(a, limit, last.value, length.value);
    return true, last.value;
  }

  lemma TerminatedEnd(s: Chars, limit: Option<nat>, end: nat)
    requires ShownEnd(s + [0], limit, end)
    ensures (s + [0])[..end] == Shown(s, limit)
  {
    var a := s + [0];
    assert a[|s|] == 0;
    assert forall k :: 0 <= k < end ==> a[k] in a[..end];
    assert end < |s| ==> a[end] == s[end];
  }

  method PrintItem(out: OutputGadget, item: Item)
    requires out.Valid() && Supported(item)
    modifies out, out.buffer
    ensures out.Valid() && out.stream == old(out.stream) + Printed(item)
  {
    match item
    case Literal(c) => out.PutChar(c);
    case Integer(v, negative, base, precision, width, flags) =>
      PrintInteger.PrintInteger(out, v, negative, base, precision, width, flags);
    case Character(c, width, left) => PrintChar(out, c, width, left);
    case Str(s, limit, width, left) =>
      var a := s + [0];
      assert a[|s|] == 0;
      var inside, end := PrintString(out, a, limit, width, left);
      TerminatedEnd(s, limit, end);
    case Reversed(text, width, flags) =>
      var buf := new Byte[|text|](k requires 0 <= k < |text| => text[k]);
      assert buf[..|text|] == text;
      OutRev(out, buf, |text|, width, flags);
    case Raw(text) => PutAll(out, text);
  }

  /** What is left behind the character at `at`. */
  function From(s: seq<Byte>, at: nat, args: seq<Arg>): Program
    requires CString(s) && at < |s|
  {
    if s[at] == 0 then Stop else Steps(s, at + 1, args)
  }

  lemma {:induction false} StepsAt(s: seq<Byte>, i: nat, args: seq<Arg>, at: nat, r: Request)
    requires CString(s) && i + 1 < |s| && s[i] == 37 && s[i + 1] != 0 && Parse(s, i + 1, args) == Found(at, r)
    ensures Steps(s, i, args) == Convert(s[at], r, From(s, at, ArgsAfter(s[at], r)))
    ensures Complete(s, i) <==> s[at] != 0 && Complete(s, at + 1)
  {
    SamePlace(s, i + 1, args, []);
  }

  lemma {:induction false} StepsEnd(s: seq<Byte>, i: nat, args: seq<Arg>)
    requires CString(s) && i + 1 < |s| && s[i] == 37 && (s[i + 1] != 0 ==> Parse(s, i + 1, args).Ended?)
    ensures Steps(s, i, args) == Stop && Complete(s, i)
  {
    SamePlace(s, i + 1, args, []);
  }

  lemma {:induction false} PlainAt(before: seq<Byte>, s: seq<Byte>, i: nat, args: seq<Arg>)
    requires CString(s) && i < |s| && s[i] != 0 && s[i] != 37
    ensures before + Render(Steps(s, i, args)) == before + [s[i]] + Render(Steps(s, i + 1, args))
    ensures Complete(s, i) <==> Complete(s, i + 1)
  {
    Regroup(before, [s[i]], Render(Steps(s, i + 1, args)));
  }

  lemma {:induction false} FormatEnd(before: seq<Byte>, s: seq<Byte>, i: nat, args: seq<Arg>)
    requires CString(s) && i < |s| && (s[i] == 0 || (s[i] == 37 && s[i + 1] == 0))
    ensures before + Render(Steps(s, i, args)) == before + [] == before && Complete(s, i)
  {
  }

  /** A directive is printed; `at` is the index of its specifier, if there is one. */
  method PrintDirective(out: OutputGadget, s: seq<Byte>, i: nat, args: seq<Arg>)
    returns (at: Option<nat>, rest: seq<Arg>)
    requires out.Valid() && CString(s) && i + 1 < |s| && s[i] == 37 && s[i + 1] != 0
    modifies out, out.buffer
    ensures out.Valid() && (at.Some? ==> i < at.value < |s|)
    ensures old(out.stream) + Render(Steps(s, i, args))
         == out.stream + if at.None? then [] else Render(From(s, at.value, rest))
    ensures Complete(s, i) <==> at.None? || (s[at.value] != 0 && Complete(s, at.value + 1))
  {
    var d := Read(s, i + 1, args);
    if d.Ended? {
      StepsEnd(s, i, args);
      at, rest := None, [];
    } else {
      StepsAt(s, i, args, d.at, d.request);
      at, rest := Some(d.at), ArgsAfter(s[d.at], d.request);
      var item := ItemOf(s[d.at], d.request);
      Regroup(out.stream, Printed(item), Render(From(s, d.at, rest)));
      PrintItem(out, item);
    }
  }

  /** One turn of the loop; `at` is the index of its last character, if the format goes on. */
  method Turn(out: OutputGadget, s: seq<Byte>, i: nat, args: seq<Arg>) returns (at: Option<nat>, rest: seq<Arg>)
    requires out.Valid() && CString(s) && i < |s| && s[i] != 0
    modifies out, out.buffer
    ensures out.Valid() && (at.Some? ==> i <= at.value < |s|)
    ensures old(out.stream) + Render(Steps(s, i, args))
         == out.stream + if at.None? then [] else Render(From(s, at.value, rest))
    ensures Complete(s, i) <==> at.None? || (s[at.value] != 0 && Complete(s, at.value + 1))
  {
    if s[i] != 37 {
      PlainAt(out.stream, s, i, args);
      out.PutChar(s[i]);
      at, rest := Some(i), args;
    } else if s[i + 1] == 0 {
      FormatEnd(out.stream, s, i, args);
      at, rest := None, [];
    } else {
      at, rest := PrintDirective(out, s, i, args);
    }
  }

  /** Where a turn leaves the loop. */
  lemma {:induction false} Onward(whole: seq<Byte>, stream: seq<Byte>, s: seq<Byte>, at: Option<nat>, rest: seq<Arg>)
    requires CString(s) && (at.Some? ==> at.value < |s|)
    requires whole == stream + if at.None? then [] else Render(From(s, at.value, rest))
    ensures at.None? || s[at.value] == 0 ==> whole == stream
    ensures at.Some? && s[at.value] != 0 ==> whole == stream + Render(Steps(s, at.value + 1, rest))
  {
  }

  /**
   `format_string_loop`: it prints what the format asks for and stays inside the format just
   if the format is complete; otherwise it stops here where it would step over the final zero.
   */
  method FormatLoop(out: OutputGadget, s: seq<Byte>, args0: seq<Arg>) returns (inside: bool)
    requires out.Valid() && CString(s)
    modifies out, out.buffer
    ensures out.Valid() && out.stream == old(out.stream) + Output(s, args0)
    ensures inside <==> Complete(s, 0)
  {
    ghost var whole := out.stream + Output(s, args0);
    var i, args := 0, args0;
    while s[i] != 0
      invariant i < |s| && out.Valid() && Complete(s, i) == Complete(s, 0)
      invariant whole == out.stream + Render(Steps(s, i, args))
      decreases |s| - i
    {
      var at, rest := Turn(out, s, i, args);
      Onward(whole, out.stream, s, at, rest);
      if at.None? { return true; }
      if s[at.value] == 0 { return false; }
      i, args := at.value + 1, rest;
    }
    FormatEnd(out.stream, s, i, args);
    inside := true;
  }

  /**
   For a complete format the result is the length of the whole text, and a buffer of any size
   holds the longest prefix that leaves room for the final zero.
   */
  method Vsnprintf(buffer: array<Byte>, s: seq<Byte>, args: seq<Arg>) returns (n: nat, inside: bool)
    requires CString(s)
    modifies buffer
    ensures inside <==> Complete(s, 0)
    ensures inside ==> n == |Output(s, args)|
    ensures inside && buffer.Length > 0 ==>
      var text := Output(s, args);
      var m := if n < buffer.Length then n else buffer.Length - 1;
      buffer[..m] == text[..m] && buffer[m] == 0
  {
    var out := new OutputGadget(buffer);
    inside := FormatLoop(out, s, args);
    assert [] + Output(s, args) == Output(s, args);
    out.Terminate();
    n := out.pos;
  }

  /** `%5` without a specifier leaves the format. */
  lemma UnfinishedDirective(s: seq<Byte>)
    requires s == [37, 53, 0]
    ensures !Complete(s, 0)
  {
    assert RunEnd(s, 1, 10) == RunEnd(s, 2, 10) == 2 && FlagsEnd(s, 1) == 1;
    var f := FlagsOf(s[1..1]);
    var w := Decimal(s[1..2]);
    assert Scan(s, 1, InWidth, f, 0, 0, []) == Scan(s, 2, InPrecision, f, w, 0, []);
    assert Scan(s, 2, InPrecision, f, w, 0, []) == Scan(s, 2, InLength, f, w, 0, []);
  }

  // ---------------------------------------------------------------- what integers are passed on

  predicate ItemPassed(item: Item) {
    item.Integer? ==>
      Passed(item.value, item.negative, item.base, item.precision, item.width, item.flags)
  }

  lemma ItemIsPassed(c: Byte, r: Request)
    requires !r.flags.pointer && (!r.flags.precision ==> r.precision == 0)
    ensures ItemPassed(ItemOf(c, r))
  {
  }

  predicate AllPassed(program: Program) {
    match program
    case Stop => true
    case Copy(_, next) => AllPassed(next)
    case Convert(c, r, next) => ItemPassed(ItemOf(c, r)) && AllPassed(next)
  }

  /** Every integer a format prints, of whatever length, flags and arguments, meets the terms of the round trip. */
  lemma {:induction false} IntegersArePassed(s: seq<Byte>, i: nat, args: seq<Arg>)
    requires CString(s) && i < |s|
    ensures AllPassed(Steps(s, i, args))
    decreases |s| - i
  {
    if s[i] != 0 && s[i] != 37 {
      IntegersArePassed(s, i + 1, args);
    } else if s[i] == 37 && s[i + 1] != 0 {
      var d := Parse(s, i + 1, args);
      ParsedFlags(s, i + 1, args);
      if d.Found? {
        ItemIsPassed(s[d.at], d.request);
        if s[d.at] != 0 {
          IntegersArePassed(s, d.at + 1, ArgsAfter(s[d.at], d.request));
        }
      }
    }
  }

  /** A format that prints one integer: `strtoll` reads it back, except in the cases of `Lossy`. */
  lemma {:induction false} PrintThenParse(s: seq<Byte>, args: seq<Arg>, c: Byte, r: Request)
    requires CString(s) && Steps(s, 0, args) == Convert(c, r, Stop) && ItemOf(c, r).Integer?
    ensures var item := ItemOf(c, r);
      var text := Output(s, args) + [0];
      && CString(text)
      && (Number(text, item.base) == WithSign(item.value, item.negative) <==>
          !Lossy(item.value, item.negative, item.base, item.precision, item.width, item.flags))
  {
    var item := ItemOf(c, r);
    IntegersArePassed(s, 0, args);
    assert Render(Convert(c, r, Stop)) == Printed(item) + Render(Stop) == Printed(item);
    ConversionRoundTrip(item.value, item.negative, item.base, item.precision, item.width, item.flags);
  }

  // ---------------------------------------------------------------- well-formed formats

  /** A directive as its author writes it. */
  datatype Spec = Spec(flags: seq<Byte>, width: seq<Byte>, precision: seq<Byte>, length: seq<Byte>, c: Byte)

  ghost predicate ValidSpec(p: Spec) {
    FlagText(p.flags) && WidthText(p.width) && PrecisionText(p.precision) && LengthText(p.length) && IsSpecifier(p.c)
  }

  function SpecText(p: Spec): seq<Byte> {
    [37] + (p.flags + (p.width + (p.precision + (p.length + [p.c]))))
  }

  /** A format: plain characters and directives of the grammar. */
  datatype Pieces = End | Plain(c: Byte, next: Pieces) | Directed(spec: Spec, next: Pieces)

  ghost predicate WellFormed(pieces: Pieces) {
    match pieces
    case End => true
    case Plain(c, next) => c != 0 && c != 37 && WellFormed(next)
    case Directed(p, next) => ValidSpec(p) && WellFormed(next)
  }

  function Written(pieces: Pieces): (s: seq<Byte>)
    ensures s != []
  {
    match pieces
    case End => [0]
    case Plain(c, next) => [c] + Written(next)
    case Directed(p, next) => SpecText(p) + Written(next)
  }

  function RequestOf(p: Spec, args: seq<Arg>): Request {
    WithWidth(FlagsOf(p.flags), p.width, p.precision, p.length, args)
  }

  /** What the pieces ask for. */
  function Asked(pieces: Pieces, args: seq<Arg>): Program {
    match pieces
    case End => Stop
    case Plain(c, next) => Copy(c, Asked(next, args))
    case Directed(p, next) =>
      Convert(p.c, RequestOf(p, args), Asked(next, ArgsAfter(p.c, RequestOf(p, args))))
  }

  lemma PartHasNoZero(t: seq<Byte>, rest: seq<Byte>)
    requires 0 !in t && 0 !in rest
    ensures 0 !in t + rest
  {
  }

  lemma PrecisionHasNoZero(t: seq<Byte>)
    requires PrecisionText(t)
    ensures 0 !in t
  {
    assert t != [] ==> t == [t[0]] + t[1..];
  }

  lemma {:induction false} SpecHasNoZero(p: Spec)
    requires ValidSpec(p)
    ensures 0 !in SpecText(p)
  {
    PartHasNoZero(p.length, [p.c]);
    PrecisionHasNoZero(p.precision);
    PartHasNoZero(p.precision, p.length + [p.c]);
    PartHasNoZero(p.width, p.precision + (p.length + [p.c]));
    PartHasNoZero(p.flags, p.width + (p.precision + (p.length + [p.c])));
  }

  lemma {:induction false} WrittenIsString(pieces: Pieces)
    requires WellFormed(pieces)
    ensures CString(Written(pieces))
  {
    match pieces
    case End =>
    case Plain(_, next) => WrittenIsString(next);
    case Directed(p, next) =>
      SpecHasNoZero(p);
      WrittenIsString(next);
  }

  /** The first part of what stands at `i`. */
  lemma {:induction false} Peel(s: seq<Byte>, i: nat, t: seq<Byte>, rest: seq<Byte>)
    requires i <= |s| && s[i..] == t + rest
    ensures Stands(s, i, t) && s[i + |t|..] == rest
  {
    assert s[i..][..|t|] == t && s[i..][|t|..] == rest;
  }

  lemma SpecTextFollowed(p: Spec, rest: seq<Byte>)
    ensures SpecText(p) + rest
         == [37] + (p.flags + (p.width + (p.precision + (p.length + ([p.c] + rest)))))
  {
    var e := p.length + [p.c];
    var d := p.precision + e;
    var c := p.width + d;
    Regroup(p.length, [p.c], rest);
    Regroup(p.precision, e, rest);
    Regroup(p.width, d, rest);
    Regroup(p.flags, c, rest);
    Regroup([37], p.flags + c, rest);
  }

  lemma PeelTwo(s: seq<Byte>, i: nat, t: seq<Byte>, u: seq<Byte>, rest: seq<Byte>)
    requires i <= |s| && s[i..] == t + (u + rest)
    ensures Stands(s, i, t) && Stands(s, i + |t|, u) && s[i + |t| + |u|..] == rest
  {
    Peel(s, i, t, u + rest);
    Peel(s, i + |t|, u, rest);
  }

  lemma SpecStands(s: seq<Byte>, i: nat, p: Spec, rest: seq<Byte>, k: nat, at: nat)
    requires i <= |s| && s[i..] == SpecText(p) + rest
    requires k == i + 1 + |p.flags| + |p.width| && at == k + |p.precision| + |p.length|
    ensures Stands(s, i, [37]) && Stands(s, i + 1, p.flags) && Stands(s, i + 1 + |p.flags|, p.width)
    ensures Stands(s, k, p.precision) && Stands(s, k + |p.precision|, p.length)
    ensures Stands(s, at, [p.c]) && s[at + 1..] == rest
  {
    var e := [p.c] + rest;
    var c := p.precision + (p.length + e);
    SpecTextFollowed(p, rest);
    Peel(s, i, [37], p.flags + (p.width + c));
    PeelTwo(s, i + 1, p.flags, p.width, c);
    PeelTwo(s, k, p.precision, p.length, e);
    Peel(s, at, [p.c], rest);
  }

  lemma {:induction false} SpecPlaced(s: seq<Byte>, i: nat, p: Spec, rest: seq<Byte>) returns (at: nat)
    requires CString(s) && i < |s| && ValidSpec(p) && s[i..] == SpecText(p) + rest
    ensures StandsDirective(s, i + 1, p.flags, p.width, p.precision, p.length, at)
    ensures s[i] == 37 && at + 1 < |s| && s[at] == p.c && s[at + 1..] == rest
  {
    var k := i + 1 + |p.flags| + |p.width|;
    at := k + |p.precision| + |p.length|;
    SpecStands(s, i, p, rest, k, at);
    assert s[i] == s[i..i + 1][0] && s[at] == s[at..at + 1][0];
  }

  lemma SpecInside(s: seq<Byte>, i: nat, at: nat)
    requires CString(s) && i <= at < |s| && s[at] != 0
    ensures at + 1 < |s| && s[i] != 0
  {
  }

  lemma {:induction false} SpecSteps(s: seq<Byte>, i: nat, p: Spec, at: nat, args: seq<Arg>, r: Request)
    requires CString(s) && i < |s| && s[i] == 37
    requires StandsDirective(s, i + 1, p.flags, p.width, p.precision, p.length, at) && s[at] == p.c
    requires r == RequestOf(p, args)
    ensures at + 1 < |s| && Steps(s, i, args) == Convert(p.c, r, Steps(s, at + 1, ArgsAfter(p.c, r)))
    ensures Complete(s, i) <==> Complete(s, at + 1)
  {
    SpecInside(s, i + 1, at);
    assert Parse(s, i + 1, args) == Found(at, r) by {
      WellFormedDirective(s, i + 1, p.flags, p.width, p.precision, p.length, at, args);
    }
    StepsAt(s, i, args, at, r);
  }

  lemma {:induction false} FirstSpec(s: seq<Byte>, i: nat, p: Spec, rest: seq<Byte>, args: seq<Arg>, r: Request)
    returns (at: nat)
    requires CString(s) && i < |s| && ValidSpec(p) && s[i..] == SpecText(p) + rest
    requires r == RequestOf(p, args)
    ensures i < at && at + 1 < |s| && s[at + 1..] == rest
    ensures Steps(s, i, args) == Convert(p.c, r, Steps(s, at + 1, ArgsAfter(p.c, r)))
    ensures Complete(s, i) <==> Complete(s, at + 1)
  {
    at := SpecPlaced(s, i, p, rest);
    SpecSteps(s, i, p, at, args, r);
  }

  lemma {:induction false} FirstPlain(s: seq<Byte>, i: nat, c: Byte, rest: seq<Byte>, args: seq<Arg>)
    requires CString(s) && i < |s| && c != 0 && c != 37 && s[i..] == [c] + rest
    ensures i + 1 < |s| && s[i + 1..] == rest
    ensures Steps(s, i, args) == Copy(c, Steps(s, i + 1, args))
    ensures Complete(s, i) <==> Complete(s, i + 1)
  {
    assert s[i] == s[i..][0] && s[i + 1..] == s[i..][1..];
  }

  /** The format from `i` on is read as these pieces. */
  ghost predicate ReadAs(s: seq<Byte>, i: nat, pieces: Pieces, args: seq<Arg>)
    requires CString(s) && i < |s|
  {
    Steps(s, i, args) == Asked(pieces, args) && Complete(s, i)
  }

  lemma {:induction false} PlainThen(s: seq<Byte>, i: nat, c: Byte, next: Pieces, args: seq<Arg>)
    requires CString(s) && i + 1 < |s| && ReadAs(s, i + 1, next, args)
    requires Steps(s, i, args) == Copy(c, Steps(s, i + 1, args)) && (Complete(s, i) <==> Complete(s, i + 1))
    ensures ReadAs(s, i, Plain(c, next), args)
  {
  }

  lemma {:induction false} SpecThen(s: seq<Byte>, i: nat, p: Spec, at: nat, next: Pieces, args: seq<Arg>, r: Request)
    requires CString(s) && i <= at && at + 1 < |s| && r == RequestOf(p, args)
    requires ReadAs(s, at + 1, next, ArgsAfter(p.c, r))
    requires Steps(s, i, args) == Convert(p.c, r, Steps(s, at + 1, ArgsAfter(p.c, r)))
    requires Complete(s, i) <==> Complete(s, at + 1)
    ensures ReadAs(s, i, Directed(p, next), args)
  {
  }

  lemma {:induction false} SpecFirst(s: seq<Byte>, i: nat, p: Spec, next: Pieces, args: seq<Arg>)
    requires CString(s) && i < |s| && s[i..] == SpecText(p) + Written(next) && ValidSpec(p) && WellFormed(next)
    ensures ReadAs(s, i, Directed(p, next), args)
    decreases next, 1
  {
    var r := RequestOf(p, args);
    var at := FirstSpec(s, i, p, Written(next), args, r);
    WellFormedFormat(s, at + 1, next, ArgsAfter(p.c, r));
    SpecThen(s, i, p, at, next, args, r);
  }

  /** A well-formed format is complete and prints what its pieces ask for, one after the other. */
  lemma {:induction false} WellFormedFormat(s: seq<Byte>, i: nat, pieces: Pieces, args: seq<Arg>)
    requires CString(s) && i < |s| && s[i..] == Written(pieces) && WellFormed(pieces)
    ensures ReadAs(s, i, pieces, args)
    decreases pieces, 0
  {
    match pieces
    case End => assert s[i] == s[i..][0];
    case Plain(c, next) =>
      FirstPlain(s, i, c, Written(next), args);
      WellFormedFormat(s, i + 1, next, args);
      PlainThen(s, i, c, next, args);
    case Directed(p, next) => SpecFirst(s, i, p, next, args);
  }
}
