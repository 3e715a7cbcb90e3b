/**
 What `strtol` and its kin make of a text, from its characters: white space, a sign, a prefix
 and digits of a base, up to the first character that is no such digit.
 */
module StrtolTexts {
  import opened Common
  import opened Strtol

  // ---------------------------------------------------------------- texts

  predicate IsBlank(c: Byte) { c in {9, 10, 11, 12, 13, 32} }

  /** The character stands for the digit `d`: `0` to `9`, then `a` to `z` or `A` to `Z`. */
  predicate DigitIs(c: Byte, d: nat) {
    if d < 10 then c == '0' as int + d
    else d < 36 && (c == 'a' as int + d - 10 || c == 'A' as int + d - 10)
  }

  /** The text spells these digits of base `b`. */
  ghost predicate Spells(text: seq<Byte>, digits: seq<nat>, b: int) {
    |text| == |digits| && forall i :: 0 <= i < |text| ==> digits[i] < b && DigitIs(text[i], digits[i])
  }

  /** The number with these digits, the most significant one first. */
  function FromDigits(digits: seq<nat>, b: int): int {
    if digits == [] then 0 else FromDigits(digits[..|digits| - 1], b) * b + digits[|digits| - 1]
  }

  /** The character is no digit of base `b`. */
  ghost predicate Stops(c: Byte, b: int) {
    forall d: nat :: d < b ==> !DigitIs(c, d)
  }

  predicate IsX(c: Byte) { c == 'x' as int || c == 'X' as int }

  predicate IsPrefix(t: seq<Byte>) { |t| == 2 && t[0] == '0' as int && IsX(t[1]) }

  predicate IsSign(t: seq<Byte>) { t == [] || t == ['+' as int] || t == ['-' as int] }

  /**
   The parts of a text. `base` is what the caller asks for, `b` what the digits are in: 16 behind
   `0x`, which is allowed for 0 and 16, else the base asked for, and for 0 octal with a leading
   zero and decimal without. There may be no digits.
   */
  datatype Parts = Parts(blanks: seq<Byte>, sign: seq<Byte>, prefix: seq<Byte>, text: seq<Byte>, rest: seq<Byte>)

  function Whole(p: Parts): seq<Byte> {
    p.blanks + (p.sign + (p.prefix + (p.text + p.rest)))
  }

  ghost predicate Grammar(p: Parts, digits: seq<nat>, base: int, b: int) {
    && (forall i :: 0 <= i < |p.blanks| ==> IsBlank(p.blanks[i])) && IsSign(p.sign)
    && Spells(p.text, digits, b) && p.rest != [] && Stops(p.rest[0], b) && 2 <= b <= 36
    && BaseFits(p.prefix, p.text + p.rest, base, b)
    && (p.sign + (p.prefix + p.text) == [] ==> !IsBlank(p.rest[0]) && !IsSign([p.rest[0]]))
  }

  /** The prefix, and what is behind it, have digits of base `b`. */
  predicate BaseFits(prefix: seq<Byte>, from: seq<Byte>, base: int, b: int)
    requires from != []
  {
    var zero := from[0] == '0' as int;
    if prefix != [] then IsPrefix(prefix) && (base == 0 || base == 16) && b == 16
    else
      && b == (if base != 0 then base else if zero then 8 else 10)
      && (base == 0 || base == 16 ==> !(zero && |from| > 1 && IsX(from[1])))
  }

  lemma DigitOf(c: Byte, d: nat)
    requires d < 36
    ensures Digit(c) == d <==> DigitIs(c, d)
  {
  }

  lemma DigitStops(c: Byte, b: int)
    requires 2 <= b <= 36
    ensures Stops(c, b) <==> Digit(c) >= b
  {
    if Digit(c) < b {
      DigitOf(c, Digit(c));
    }
    forall d: nat | d < b
      ensures Digit(c) == d <==> DigitIs(c, d)
    {
      DigitOf(c, d);
    }
  }

  lemma {:induction false} SpelledValue(text: seq<Byte>, digits: seq<nat>, b: int)
    requires Spells(text, digits, b) && b <= 36
    ensures Value(text, b) == FromDigits(digits, b)
    ensures forall i :: 0 <= i < |text| ==> Digit(text[i]) == digits[i]
  {
    if text != [] {
      var n := |text| - 1;
      SpelledValue(text[..n], digits[..n], b);
      DigitOf(text[n], digits[n]);
      assert forall i :: 0 <= i < n ==> text[i] == text[..n][i];
    }
  }

  /** White space ends where the first other character is. */
  lemma {:induction false} SkipIs(s: seq<Byte>, i: nat)
    requires CString(s) && i < |s| && !IsBlank(s[i]) && forall k :: 0 <= k < i ==> IsBlank(s[k])
    ensures SkipSpaces(s, 0) == i
  {
  }

  lemma {:induction false} RunEndIs(s: seq<Byte>, i: nat, j: nat, b: int)
    requires CString(s) && i <= j < |s| && 2 <= b <= 36 && Digit(s[j]) >= b
    requires forall k :: i <= k < j ==> Digit(s[k]) < b
    ensures RunEnd(s, i, b) == j
  {
  }

  /** `SkipSpaces`, `Start` and `Negative`, from the characters of the string at hand. */
  lemma StartAt(s: seq<Byte>, i: nat, j: nat, k: nat, base: int, b: int)
    requires CString(s) && ValidBase(base) && i <= j <= k < |s|
    requires !IsBlank(s[i]) && forall x :: 0 <= x < i ==> IsBlank(s[x])
    requires if j == i then !IsSign([s[i]]) else j == i + 1 && IsSign([s[i]])
    requires k == j || k == j + 2
    requires BaseFits(s[j..k], s[k..], base, b)
    ensures Start(s, base) == (k, b)
    ensures Negative(s) <==> s[i] == '-' as int
  {
    SkipIs(s, i);
    if k == j {
      assert s[k..][0] == s[j] && (j + 1 < |s| ==> s[k..][1] == s[j + 1]);
    } else {
      assert s[j..k][0] == s[j] && s[j..k][1] == s[j + 1];
    }
  }

  lemma NumberAt(s: seq<Byte>, k: nat, e: nat, digits: seq<nat>, base: int, b: int)
    requires CString(s) && ValidBase(base) && k <= e < |s| && 2 <= b <= 36 && Start(s, base) == (k, b)
    requires Spells(s[k..e], digits, b) && Stops(s[e], b)
    ensures Number(s, base) == if Negative(s) then -FromDigits(digits, b) else FromDigits(digits, b)
    ensures End(s, base) == if k == e then 0 else e
  {
    SpelledValue(s[k..e], digits, b);
    DigitStops(s[e], b);
    assert forall x :: k <= x < e ==> s[x] == s[k..e][x - k];
    RunEndIs(s, k, e, b);
  }

  /** What is put in front of a text stands in front of it. */
  lemma Peeled(s: seq<Byte>, i: nat, t: seq<Byte>, rest: seq<Byte>)
    requires i <= |s| && s[i..] == t + rest
    ensures i + |t| <= |s| && s[i..i + |t|] == t && s[i + |t|..] == rest
  {
    assert s[i..][..|t|] == t && s[i..][|t|..] == rest;
  }

  lemma PartsStand(s: seq<Byte>, p: Parts, i: nat, j: nat, k: nat, e: nat)
    requires s == Whole(p)
    requires i == |p.blanks| && j == i + |p.sign| && k == j + |p.prefix| && e == k + |p.text|
    ensures e <= |s| && s[..i] == p.blanks && s[i..j] == p.sign && s[j..k] == p.prefix && s[k..e] == p.text
    ensures s[i..] == p.sign + (p.prefix + (p.text + p.rest)) && s[k..] == p.text + p.rest && s[e..] == p.rest
  {
    assert s[0..] == s;
    Peeled(s, 0, p.blanks, p.sign + (p.prefix + (p.text + p.rest)));
    Peeled(s, i, p.sign, p.prefix + (p.text + p.rest));
    Peeled(s, j, p.prefix, p.text + p.rest);
    Peeled(s, k, p.text, p.rest);
  }

  /** What comes after the blanks is no blank, and a sign only if there is one. */
  lemma FirstChar(p: Parts, digits: seq<nat>, base: int, b: int, c: Byte)
    requires Grammar(p, digits, base, b) && c == (p.sign + (p.prefix + (p.text + p.rest)))[0]
    ensures !IsBlank(c) && (if p.sign == [] then !IsSign([c]) else p.sign == [c])
  {
    if p.sign + p.prefix == [] && p.text != [] {
      assert c == p.text[0] && DigitIs(c, digits[0]);
    } else if p.sign == [] && p.prefix == [] {
      assert p.sign + (p.prefix + p.text) == [] && c == p.rest[0];
    }
  }

  /** The parts as they stand in the string. */
  ghost predicate StandAs(s: seq<Byte>, p: Parts, i: nat, j: nat, k: nat, e: nat) {
    && i <= j <= k <= e < |s| && s[..i] == p.blanks && s[i..j] == p.sign && s[j..k] == p.prefix && s[k..e] == p.text
    && s[e..] == p.rest && s[k..] == p.text + p.rest
    && s[i] == (p.sign + (p.prefix + (p.text + p.rest)))[0]
  }

  lemma ReadAt(s: seq<Byte>, p: Parts, digits: seq<nat>, base: int, b: int, i: nat, j: nat, k: nat, e: nat)
    requires CString(s) && ValidBase(base) && Grammar(p, digits, base, b) && StandAs(s, p, i, j, k, e)
    ensures Number(s, base) == if p.sign == ['-' as int] then -FromDigits(digits, b) else FromDigits(digits, b)
    ensures End(s, base) == if k == e then 0 else e
  {
    FirstChar(p, digits, base, b, s[i]);
    assert |s[i..j]| == j - i && |s[j..k]| == k - j && s[e] == s[e..][0];
    assert forall x :: 0 <= x < i ==> s[x] == s[..i][x];
    StartAt(s, i, j, k, base, b);
    NumberAt(s, k, e, digits, base, b);
  }

  /**
   Every text of the grammar is read as it is written: the number its digits spell, with its
   sign, and `endptr` behind the digits, or at the start without any.
   */
  lemma {:induction false} ReadAsWritten(s: seq<Byte>, p: Parts, digits: seq<nat>, base: int, b: int)
    requires CString(s) && ValidBase(base) && s == Whole(p) && Grammar(p, digits, base, b)
    ensures Number(s, base) == if p.sign == ['-' as int] then -FromDigits(digits, b) else FromDigits(digits, b)
    ensures End(s, base) == if p.text == [] then 0 else |p.blanks| + |p.sign| + |p.prefix| + |p.text|
  {
    var i := |p.blanks|;
    var j := i + |p.sign|;
    var k := j + |p.prefix|;
    var e := k + |p.text|;
    PartsStand(s, p, i, j, k, e);
    assert s[i] == s[i..][0];
    ReadAt(s, p, digits, base, b, i, j, k, e);
  }

  lemma Joined(s: seq<Byte>, i: nat, j: nat, k: nat, e: nat)
    requires i <= j <= k <= e < |s|
    ensures Whole(Parts(s[..i], s[i..j], s[j..k], s[k..e], s[e..])) == s && s[k..e] + s[e..] == s[k..]
  {
    assert s[k..e] + s[e..] == s[k..];
    assert s[j..k] + s[k..] == s[j..];
    assert s[i..j] + s[j..] == s[i..];
    assert s[..i] + s[i..] == s;
  }

  lemma DigitsAt(s: seq<Byte>, k: nat, e: nat, b: int) returns (digits: seq<nat>)
    requires CString(s) && k < |s| && 2 <= b <= 36 && e == RunEnd(s, k, b)
    ensures Spells(s[k..e], digits, b) && Stops(s[e], b)
  {
    digits := seq(e - k, x requires 0 <= x < e - k => Digit(s[k + x]));
    forall x | 0 <= x < e - k
      ensures digits[x] < b && DigitIs(s[k..e][x], digits[x])
    {
      DigitOf(s[k + x], digits[x]);
    }
    DigitStops(s[e], b);
  }

  lemma StartFits(s: seq<Byte>, base: int, i: nat, j: nat, k: nat, b: int)
    requires CString(s) && ValidBase(base) && i == SkipSpaces(s, 0)
    requires j == if s[i] == 45 || s[i] == 43 then i + 1 else i
    requires (k, b) == Start(s, base)
    ensures j <= k < |s| && BaseFits(s[j..k], s[k..], base, b) && IsSign(s[i..j])
    ensures i == k ==> !IsBlank(s[i]) && !IsSign([s[i]])
  {
    if k == j {
      assert s[j..k] == [];
    }
  }

  lemma GrammarAt(s: seq<Byte>, p: Parts, digits: seq<nat>, base: int, b: int, i: nat, j: nat, k: nat, e: nat)
    requires i <= j <= k <= e < |s| && p == Parts(s[..i], s[i..j], s[j..k], s[k..e], s[e..])
    requires forall x :: 0 <= x < i ==> IsBlank(s[x])
    requires IsSign(p.sign) && 2 <= b <= 36 && Spells(p.text, digits, b) && Stops(s[e], b)
    requires BaseFits(p.prefix, s[k..], base, b) && p.text + p.rest == s[k..]
    requires i == k ==> !IsBlank(s[i]) && !IsSign([s[i]])
    ensures Grammar(p, digits, base, b)
  {
    assert s[e..][0] == s[e];
    assert |p.sign + (p.prefix + p.text)| == e - i;
  }

  lemma Cut(s: seq<Byte>, digits: seq<nat>, base: int, b: int, i: nat, j: nat, k: nat, e: nat) returns (p: Parts)
    requires i <= j <= k <= e < |s| && forall x :: 0 <= x < i ==> IsBlank(s[x])
    requires IsSign(s[i..j]) && 2 <= b <= 36 && Spells(s[k..e], digits, b) && Stops(s[e], b)
    requires BaseFits(s[j..k], s[k..], base, b)
    requires i == k ==> !IsBlank(s[i]) && !IsSign([s[i]])
    ensures s == Whole(p) && Grammar(p, digits, base, b)
  {
    p := Parts(s[..i], s[i..j], s[j..k], s[k..e], s[e..]);
    Joined(s, i, j, k, e);
    GrammarAt(s, p, digits, base, b, i, j, k, e);
  }

  /** Every string is a text of the grammar. */
  lemma EveryStringIsText(s: seq<Byte>, base: int) returns (p: Parts, digits: seq<nat>, b: int)
    requires CString(s) && ValidBase(base)
    ensures s == Whole(p) && Grammar(p, digits, base, b)
  {
    var i := SkipSpaces(s, 0);
    var j := if s[i] == 45 || s[i] == 43 then i + 1 else i;
    var k := Start(s, base).0;
    b := Start(s, base).1;
    StartFits(s, base, i, j, k, b);
    var e := RunEnd(s, k, b);
    digits := DigitsAt(s, k, e, b);
    p := Cut(s, digits, base, b, i, j, k, e);
  }
}
