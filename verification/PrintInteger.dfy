/**
 Printing integers: the reversed digit buffer of 32 characters, padding, prefix and sign,
 and the output gadget that counts every character but stores only those that fit.
 */
module PrintInteger {
  import opened Common
  import opened Strtol

  const BUFFER_SIZE: nat := 32

  datatype Flags = Flags(
    zeropad: bool, left: bool, plus: bool, space: bool, hash: bool, uppercase: bool, precision: bool, pointer: bool)

  // ---------------------------------------------------------------- the text

  function DigitChar(d: int, upper: bool): Byte
    requires 0 <= d < 16
  {
    if d < 10 then 48 + d else if upper then 55 + d else 87 + d
  }

  predicate IsBase(base: int) { base == 2 || base == 8 || base == 10 || base == 16 }

  /** Division by the base, with literal divisors. */
  function Rest(v: nat, base: nat): nat {
    if base == 2 then v / 2 else if base == 8 then v / 8 else if base == 10 then v / 10 else v / 16
  }

  function Low(v: nat, base: nat): (d: nat)
    ensures d < 16 && (IsBase(base) ==> d < base && v == Rest(v, base) * base + d)
  {
    if base == 2 then v % 2 else if base == 8 then v % 8 else if base == 10 then v % 10 else v % 16
  }

  /** The digits of `v`, the last one first, at most `n` of them. */
  function RevDigits(v: nat, base: nat, upper: bool, n: nat): (r: seq<Byte>)
    ensures |r| <= n
    decreases v
  {
    if v == 0 || n == 0 then [] else [DigitChar(Low(v, base), upper)] + RevDigits(Rest(v, base), base, upper, n - 1)
  }

  function Repeat(c: Byte, n: int): (r: seq<Byte>)
    ensures |r| == if n > 0 then n else 0
    ensures forall k :: 0 <= k < |r| ==> r[k] == c
  {
    if n <= 0 then [] else Repeat(c, n - 1) + [c]
  }

  function Reverse(s: seq<Byte>): (r: seq<Byte>)
    ensures |r| == |s| && forall k :: 0 <= k < |s| ==> r[k] == s[|s| - 1 - k]
  {
    seq(|s|, k requires 0 <= k < |s| => s[|s| - 1 - k])
  }

  /** Zeros up to length `n`, as far as the buffer goes. */
  function Pad(buf: seq<Byte>, n: nat): (r: seq<Byte>)
    ensures |buf| <= BUFFER_SIZE ==> |buf| <= |r| <= BUFFER_SIZE
  {
    buf + Repeat(48, (if n < BUFFER_SIZE then n else BUFFER_SIZE) - |buf|)
  }

  /** One more character, if the buffer has room. */
  function Push(buf: seq<Byte>, c: Byte): (r: seq<Byte>)
    ensures |buf| <= BUFFER_SIZE ==> |buf| <= |r| <= BUFFER_SIZE
  {
    if |buf| < BUFFER_SIZE then buf + [c] else buf
  }

  /** The digits of the value in the buffer, and the flags that are left. */
  function Digits(v: nat, base: nat, flags: Flags): (r: (seq<Byte>, Flags))
    ensures |r.0| <= BUFFER_SIZE
  {
    if v != 0 then (RevDigits(v, base, flags.uppercase, BUFFER_SIZE), flags)
    else if !flags.precision then ([48], flags.(hash := false))
    else ([], if base == 16 then flags.(hash := false) else flags)
  }

  /** The width that remains when room for a sign is set aside. */
  function NetWidth(negative: bool, width: nat, flags: Flags): nat {
    if !flags.left && width > 0 && flags.zeropad && (negative || flags.plus || flags.space) then width - 1 else width
  }

  function Padded(buf: seq<Byte>, precision: nat, netWidth: nat, flags: Flags): (r: seq<Byte>)
    ensures |buf| <= BUFFER_SIZE ==> |buf| <= |r| <= BUFFER_SIZE
  {
    Pad(if !flags.left && flags.zeropad then Pad(buf, netWidth) else buf, precision)
  }

  /** Padding that is given back to make room for a prefix. */
  function TakeBack(buf: seq<Byte>, unpadded: nat, base: nat, precision: nat, netWidth: nat, flags: Flags):
    (r: seq<Byte>)
    ensures |r| <= |buf|
  {
    if !flags.precision && |buf| > 0 && (|buf| == precision || |buf| == netWidth) then
      var b1 := if unpadded < |buf| then buf[..|buf| - 1] else buf;
      if |b1| > 0 && (base == 16 || base == 2) && unpadded < |b1| then b1[..|b1| - 1] else b1
    else buf
  }

  function Prefixed(buf: seq<Byte>, base: nat, flags: Flags): (r: seq<Byte>)
    ensures |buf| <= BUFFER_SIZE ==> |buf| <= |r| <= BUFFER_SIZE
  {
    var b1 := if base == 16 then Push(buf, if flags.uppercase then 88 else 120)
              else if base == 2 then Push(buf, 98) else buf;
    Push(b1, 48)
  }

  function Signed(buf: seq<Byte>, negative: bool, flags: Flags): (r: seq<Byte>)
    ensures |buf| <= BUFFER_SIZE ==> |buf| <= |r| <= BUFFER_SIZE
  {
    if negative then Push(buf, 45) else if flags.plus then Push(buf, 43) else if flags.space then Push(buf, 32) else buf
  }

  /** The buffer that `print_integer_finalization` hands out, reversed. */
  function Finalized(buf: seq<Byte>, negative: bool, base: nat, precision: nat, netWidth: nat, flags: Flags):
    (r: seq<Byte>)
    requires |buf| <= BUFFER_SIZE
    ensures |r| <= BUFFER_SIZE
  {
    var padded := Padded(buf, precision, netWidth, flags);
    var hash := flags.hash && !(base == 8 && |padded| > |buf|);
    var b := if hash || flags.pointer
             then Prefixed(TakeBack(padded, |buf|, base, precision, netWidth, flags), base, flags)
             else padded;
    Signed(b, negative, flags)
  }

  function Justified(text: seq<Byte>, width: nat, flags: Flags): seq<Byte> {
    if flags.left then text + Repeat(32, width - |text|)
    else if flags.zeropad then text
    else Repeat(32, width - |text|) + text
  }

  /** What `print_integer_finalization` prints for the digits in the buffer. */
  function Conversion(buf: seq<Byte>, negative: bool, base: nat, precision: nat, width: nat, flags: Flags): seq<Byte>
    requires |buf| <= BUFFER_SIZE
  {
    var net := NetWidth(negative, width, flags);
    Justified(Reverse(Finalized(buf, negative, base, precision, net, flags)), net, flags)
  }

  /** All that a conversion prints. */
  function Text(v: nat, negative: bool, base: nat, precision: nat, width: nat, flags: Flags): seq<Byte>
  {
    var (buf, flags') := Digits(v, base, flags);
    Conversion(buf, negative, base, precision, width, flags')
  }

  // ---------------------------------------------------------------- the gadget

  /** `stream` is everything printed so far; the buffer holds as much of it as fits. */
  class OutputGadget {
    const buffer: array<Byte>
    var pos: nat
    ghost var stream: seq<Byte>

    ghost predicate Valid()
      reads this, buffer
    {
      && pos == |stream|
      && forall k :: 0 <= k < pos && k < buffer.Length ==> buffer[k] == stream[k]
    }

    constructor (buffer: array<Byte>)
      ensures Valid() && this.buffer == buffer && stream == []
    {
      this.buffer := buffer;
      pos := 0;
      stream := [];
    }

    method PutChar(c: Byte)
      requires Valid()
      modifies this, buffer
      ensures Valid() && stream == old(stream) + [c]
    {
      var at := pos;
      pos := pos + 1;
      stream := stream + [c];
      if at < buffer.Length {
        buffer[at] := c;
      }
    }

    /** The buffer becomes a C string: the stream, cut to what fits before the final zero. */
    method Terminate()
      requires Valid()
      modifies buffer
      ensures buffer.Length > 0 ==>
        var n := if pos < buffer.Length then pos else buffer.Length - 1;
        buffer[..n] == stream[..n] && buffer[n] == 0
    {
      if buffer.Length > 0 {
        var n := if pos < buffer.Length then pos else buffer.Length - 1;
        buffer[n] := 0;
      }
    }
  }

  method PutRepeated(out: OutputGadget, c: Byte, n: int)
    requires out.Valid()
    modifies out, out.buffer
    ensures out.Valid() && out.stream == old(out.stream) + Repeat(c, n)
  {
    var i := 0;
    while i < n
      invariant 0 <= i && (i == 0 || i <= n) && out.Valid()
      invariant out.stream == old(out.stream) + Repeat(c, i)
    {
      out.PutChar(c);
      i := i + 1;
    }
    assert n <= 0 ==> Repeat(c, n) == [] == Repeat(c, i);
  }

  method OutRev(out: OutputGadget, buf: array<Byte>, len0: nat, width: nat, flags: Flags)
    requires out.Valid() && len0 <= buf.Length && buf != out.buffer
    modifies out, out.buffer
    ensures out.Valid() && out.stream == old(out.stream) + Justified(Reverse(buf[..len0]), width, flags)
  {
    var startPos := out.pos;
    ghost var text := Reverse(buf[..len0]);
    if !flags.left && !flags.zeropad {
      PutRepeated(out, 32, width - len0);
    }
    ghost var before := out.stream;
    var len := len0;
    while len > 0
      invariant len <= len0 && out.Valid() && out.stream == before + text[..len0 - len]
    {
      len := len - 1;
      assert text[len0 - len - 1] == buf[len];
      assert text[..len0 - len] == text[..len0 - len - 1] + [buf[len]];
      out.PutChar(buf[len]);
    }
    assert text[..len0] == text;
    if flags.left {
      PutRepeated(out, 32, width - (out.pos - startPos));
    }
  }

  method PadBuffer(buf: array<Byte>, len0: nat, n: nat) returns (len: nat)
    requires len0 <= buf.Length == BUFFER_SIZE
    modifies buf
    ensures len <= BUFFER_SIZE && buf[..len] == Pad(old(buf[..len0]), n)
  {
    len := len0;
    while len < n && len < BUFFER_SIZE
      invariant len0 <= len <= BUFFER_SIZE && (len > len0 ==> len <= n)
      invariant buf[..len] == old(buf[..len0]) + Repeat(48, len - len0)
    {
      buf[len] := 48;
      len := len + 1;
    }
  }

  method PushBuffer(buf: array<Byte>, len0: nat, c: Byte) returns (len: nat)
    requires len0 <= buf.Length == BUFFER_SIZE
    modifies buf
    ensures len <= BUFFER_SIZE && buf[..len] == Push(old(buf[..len0]), c)
    ensures len0 < BUFFER_SIZE ==> len == len0 + 1
  {
    len := len0;
    if len < BUFFER_SIZE {
      buf[len] := c;
      len := len + 1;
    }
  }

  method PadZeros(buf: array<Byte>, len0: nat, precision: nat, width: nat, flags: Flags) returns (len: nat)
    requires len0 <= buf.Length == BUFFER_SIZE
    modifies buf
    ensures len <= BUFFER_SIZE && buf[..len] == Padded(old(buf[..len0]), precision, width, flags)
  {
    len := len0;
    if !flags.left && flags.zeropad {
      len := PadBuffer(buf, len, width);
    }
    len := PadBuffer(buf, len, precision);
  }

  method AddPrefix(buf: array<Byte>, len0: nat, unpadded: nat, base: nat, precision: nat, width: nat, flags: Flags)
    returns (len: nat)
    requires len0 <= buf.Length == BUFFER_SIZE
    modifies buf
    ensures len <= BUFFER_SIZE
    ensures buf[..len] == Prefixed(TakeBack(old(buf[..len0]), unpadded, base, precision, width, flags), base, flags)
  {
    len := len0;
    if !flags.precision && len > 0 && (len == precision || len == width) {
      if unpadded < len {
        len := len - 1;
      }
      if len > 0 && (base == 16 || base == 2) && unpadded < len {
        len := len - 1;
      }
    }
    assert buf[..len] == TakeBack(buf[..len0], unpadded, base, precision, width, flags);
    if base == 16 {
      len := PushBuffer(buf, len, if flags.uppercase then 88 else 120);
    } else if base == 2 {
      len := PushBuffer(buf, len, 98);
    }
    len := PushBuffer(buf, len, 48);
  }

  method AddSign(buf: array<Byte>, len0: nat, negative: bool, flags: Flags) returns (len: nat)
    requires len0 <= buf.Length == BUFFER_SIZE
    modifies buf
    ensures len <= BUFFER_SIZE && buf[..len] == Signed(old(buf[..len0]), negative, flags)
  {
    len := len0;
    if negative {
      len := PushBuffer(buf, len, 45);
    } else if flags.plus {
      len := PushBuffer(buf, len, 43);
    } else if flags.space {
      len := PushBuffer(buf, len, 32);
    }
  }

  method FillBuffer(buf: array<Byte>, len0: nat, negative: bool, base: nat, precision: nat, width: nat, flags: Flags)
    returns (len: nat)
    requires len0 <= buf.Length == BUFFER_SIZE
    modifies buf
    ensures len <= BUFFER_SIZE
    ensures buf[..len] == Finalized(old(buf[..len0]), negative, base, precision, width, flags)
  {
    var hash := flags.hash;
    len := PadZeros(buf, len0, precision, width, flags);
    if base == 8 && len > len0 {
      hash := false;
    }
    if hash || flags.pointer {
      len := AddPrefix(buf, len, len0, base, precision, width, flags);
    }
    len := AddSign(buf, len, negative, flags);
  }

  method Finalize(out: OutputGadget, buf: array<Byte>, len0: nat, negative: bool, base: nat,
                  precision: nat, width0: nat, flags: Flags)
    requires out.Valid() && buf != out.buffer && len0 <= buf.Length == BUFFER_SIZE
    modifies out, out.buffer, buf
    ensures out.Valid()
    ensures out.stream == old(out.stream) + Conversion(old(buf[..len0]), negative, base, precision, width0, flags)
  {
    var width := width0;
    if !flags.left && width > 0 && flags.zeropad && (negative || flags.plus || flags.space) {
      width := width - 1;
    }
    var len := FillBuffer(buf, len0, negative, base, precision, width, flags);
    OutRev(out, buf, len, width, flags);
  }

  lemma {:induction false} NextDigit(buf: seq<Byte>, v: nat, base: nat, upper: bool, n: nat)
    requires v > 0 && n > 0
    ensures buf + RevDigits(v, base, upper, n)
         == buf + [DigitChar(Low(v, base), upper)] + RevDigits(Rest(v, base), base, upper, n - 1)
  {
  }

  method WriteDigits(buf: array<Byte>, value0: nat, base: nat, upper: bool) returns (len: nat)
    requires buf.Length == BUFFER_SIZE && IsBase(base)
    modifies buf
    ensures len <= BUFFER_SIZE && buf[..len] == RevDigits(value0, base, upper, BUFFER_SIZE)
  {
    ghost var all := RevDigits(value0, base, upper, BUFFER_SIZE);
    var value := value0;
    len := 0;
    while value > 0 && len < BUFFER_SIZE
      invariant len <= BUFFER_SIZE
      invariant all == buf[..len] + RevDigits(value, base, upper, BUFFER_SIZE - len)
      decreases BUFFER_SIZE - len
    {
      NextDigit(buf[..len], value, base, upper, BUFFER_SIZE - len);
      len := PushBuffer(buf, len, DigitChar(Low(value, base), upper));
      value := Rest(value, base);
    }
  }

  method StartDigits(buf: array<Byte>, value: nat, base: nat, flags0: Flags) returns (len: nat, flags: Flags)
    requires buf.Length == BUFFER_SIZE && IsBase(base)
    modifies buf
    ensures len <= BUFFER_SIZE && buf[..len] == Digits(value, base, flags0).0
    ensures flags == Digits(value, base, flags0).1
  {
    len, flags := 0, flags0;
    if value == 0 {
      if !flags.precision {
        buf[0] := 48;
        len, flags := 1, flags.(hash := false);
      } else if base == 16 {
        flags := flags.(hash := false);
      }
    } else {
      len := WriteDigits(buf, value, base, flags.uppercase);
    }
  }

  method PrintInteger(out: OutputGadget, value: nat, negative: bool, base: nat,
                      precision: nat, width: nat, flags0: Flags)
    requires out.Valid() && IsBase(base)
    modifies out, out.buffer
    ensures out.Valid()
    ensures out.stream == old(out.stream) + Text(value, negative, base, precision, width, flags0)
  {
    var buf := new Byte[BUFFER_SIZE];
    var len, flags := StartDigits(buf, value, base, flags0);
    Finalize(out, buf, len, negative, base, precision, width, flags);
  }
}
