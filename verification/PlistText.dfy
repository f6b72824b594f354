/**
 * Character data in a property list: entity references, UTF-8, and the
 * numbers of the C library, as functions on the bytes left to read.
 */
module PlistText {
  import opened Common
  import opened PlistBase64

  const LT: Byte := 0x3C
  const GT: Byte := 0x3E
  const AMP: Byte := 0x26
  const QUOT: Byte := 0x22
  const APOS: Byte := 0x27
  const HASH: Byte := 0x23
  const SEMI: Byte := 0x3B
  const SLASH: Byte := 0x2F
  const NEWLINE: Byte := 0x0A

  /** What a reading function gives: a value and what is left, or where it failed. */
  datatype Read<+T> = Done(value: T, rest: seq<Byte>) | Failed(at: seq<Byte>)

  predicate Suffix(t: seq<Byte>, s: seq<Byte>) {
    |t| <= |s| && t == s[|s| - |t|..]
  }

  lemma SuffixOfSuffix(a: seq<Byte>, b: seq<Byte>, c: seq<Byte>)
    requires Suffix(a, b) && Suffix(b, c)
    ensures Suffix(a, c)
  {
  }

  // ------------------------------------------------------------------- UTF-8

  /** sb_put_codepoint, for any unsigned long. */
  function Utf8(cp: nat): (s: seq<Byte>) {
    if cp < 0x80 then [cp]
    else if cp < 0x800 then [0xC0 + cp / 64, 0x80 + cp % 64]
    else if cp < 0x1_0000 then [0xE0 + cp / 4096, 0x80 + cp / 64 % 64, 0x80 + cp % 64]
    else [0xF0 + cp / 0x4_0000 % 16, 0x80 + cp / 4096 % 64, 0x80 + cp / 64 % 64, 0x80 + cp % 64]
  }

  predicate Scalar(cp: nat) {
    cp < 0x11_0000 && !(0xD800 <= cp < 0xE000)
  }

  predicate Tail(c: Byte) {
    0x80 <= c < 0xC0
  }

  function Code2(a: int, b: int): int {
    (a - 0xC0) * 64 + (b - 0x80)
  }

  function Code3(a: int, b: int, c: int): int {
    (a - 0xE0) * 4096 + (b - 0x80) * 64 + (c - 0x80)
  }

  function Code4(a: int, b: int, c: int, d: int): int {
    (a - 0xF0) * 0x4_0000 + (b - 0x80) * 4096 + (c - 0x80) * 64 + (d - 0x80)
  }

  /** The scalar value that starts a string, by the syntax of section 4 of RFC 3629, and its length. */
  function Utf8Decode(s: seq<Byte>): Option<(int, nat)> {
    if s == [] then None
    else if s[0] < 0x80 then Some((s[0], 1))
    else if 0xC2 <= s[0] < 0xE0 && |s| >= 2 && Tail(s[1]) then Some((Code2(s[0], s[1]), 2))
    else if 0xE0 <= s[0] < 0xF0 && |s| >= 3 && Tail(s[1]) && Tail(s[2])
            && (s[0] == 0xE0 ==> s[1] >= 0xA0) && (s[0] == 0xED ==> s[1] < 0xA0)
    then Some((Code3(s[0], s[1], s[2]), 3))
    else if 0xF0 <= s[0] < 0xF5 && |s| >= 4 && Tail(s[1]) && Tail(s[2]) && Tail(s[3])
            && (s[0] == 0xF0 ==> s[1] >= 0x90) && (s[0] == 0xF4 ==> s[1] < 0x90)
    then Some((Code4(s[0], s[1], s[2], s[3]), 4))
    else None
  }

  lemma Split3(cp: nat)
    requires 0x800 <= cp < 0x1_0000
    ensures Code3(0xE0 + cp / 4096, 0x80 + cp / 64 % 64, 0x80 + cp % 64) == cp
    ensures cp < 0x1000 ==> cp / 64 % 64 >= 0x20
    ensures !(0xD800 <= cp < 0xE000) && cp / 4096 == 0xD ==> cp / 64 % 64 < 0x20
  {
  }

  lemma Split4(cp: nat)
    requires 0x1_0000 <= cp < 0x11_0000
    ensures Code4(0xF0 + cp / 0x4_0000, 0x80 + cp / 4096 % 64, 0x80 + cp / 64 % 64, 0x80 + cp % 64) == cp
    ensures cp / 0x4_0000 <= 4 && cp / 0x4_0000 % 16 == cp / 0x4_0000
    ensures cp / 0x4_0000 == 0 ==> cp / 4096 % 64 >= 0x10
    ensures cp / 0x4_0000 == 4 ==> cp / 4096 % 64 < 0x10
  {
    var q1 := cp / 64;
    var q2 := q1 / 64;
    var q3 := q2 / 64;
    assert cp / 4096 == q2;
    assert cp / 0x4_0000 == q3;
    assert cp == q1 * 64 + cp % 64 && q1 == q2 * 64 + q1 % 64 && q2 == q3 * 64 + q2 % 64;
  }

  /** A character reference to a scalar value is that character's UTF-8 form (RFC 3629). */
  lemma Utf8IsRfc3629(cp: nat, rest: seq<Byte>)
    requires Scalar(cp)
    ensures Utf8Decode(Utf8(cp) + rest) == Some((cp, |Utf8(cp)|))
    ensures cp > 0 ==> NulFree(Utf8(cp))
  {
    if cp >= 0x1_0000 {
      Split4(cp);
      hide Code4;
    } else if cp >= 0x800 {
      Split3(cp);
      hide Code3;
    }
  }

  // ----------------------------------------------------------------- numbers

  /** The value of an alphanumeric digit. */
  function Digit(c: Byte): Option<nat> {
    if 48 <= c <= 57 then Some(c - 48)
    else if 65 <= c <= 90 then Some(c - 65 + 10)
    else if 97 <= c <= 122 then Some(c - 97 + 10)
    else None
  }

  predicate IsDigit(c: Byte, base: nat) {
    Digit(c).Some? && Digit(c).value < base
  }

  /** The digits at the front of a string, taken one by one as strtoul does. */
  function TakeDigits(s: seq<Byte>, base: nat, acc: nat): nat {
    if s == [] || !IsDigit(s[0], base) then acc
    else TakeDigits(s[1..], base, acc * base + Digit(s[0]).value)
  }

  function SkipWs(s: seq<Byte>): (t: seq<Byte>)
    ensures |t| <= |s| && (t == [] || !IsSpace(t[0]))
  {
    if s == [] || !IsSpace(s[0]) then s else SkipWs(s[1..])
  }

  /** The optional sign of a number: whether it is a minus, and what follows. */
  function TakeSign(s: seq<Byte>): (bool, seq<Byte>) {
    if s != [] && s[0] == 45 then (true, s[1..])
    else if s != [] && s[0] == 43 then (false, s[1..])
    else (false, s)
  }

  /** strtoul in base 10 or 16, on a NUL-terminated buffer. */
  function Strtoul(buffer: seq<Byte>, base: nat): nat
    requires base in {10, 16}
  {
    var (minus, s) := TakeSign(SkipWs(CString(buffer)));
    var digits := if base == 16 && |s| > 2 && s[0] == 48 && s[1] in {88, 120} && IsDigit(s[2], 16) then s[2..] else s;
    var v := TakeDigits(digits, base, 0);
    if v >= TWO_64 then TWO_64 - 1 else if minus then (TWO_64 - v) % TWO_64 else v
  }

  /** strtoll in base 10: out of range saturates. */
  function Strtoll(buffer: seq<Byte>): int {
    var (minus, s) := TakeSign(SkipWs(CString(buffer)));
    Clamp(if minus then 0 - TakeDigits(s, 10, 0) as int else TakeDigits(s, 10, 0))
  }

  function Clamp(v: int): int {
    if v >= TWO_63 then TWO_63 - 1 else if v < -TWO_63 then -TWO_63 else v
  }

  predicate Digits(digits: seq<Byte>, base: nat) {
    forall i :: 0 <= i < |digits| ==> IsDigit(digits[i], base)
  }

  /** The positional value of a numeral. */
  function Numeral(digits: seq<Byte>, base: nat): nat
    requires Digits(digits, base)
  {
    if digits == [] then 0
    else
      assert IsDigit(digits[|digits| - 1], base);
      Numeral(digits[..|digits| - 1], base) * base + Digit(digits[|digits| - 1]).value
  }

  lemma {:induction false} TakesNumeral(a: seq<Byte>, b: seq<Byte>, base: nat)
    requires Digits(a, base) && Digits(b, base)
    ensures Digits(a + b, base) && TakeDigits(b, base, Numeral(a, base)) == Numeral(a + b, base)
    decreases |b|
  {
    if b == [] {
      assert a + b == a;
    } else {
      var a' := a + [b[0]];
      assert a'[..|a|] == a && a' + b[1..] == a + b;
      TakesNumeral(a', b[1..], base);
    }
  }

  /** The decimal numeral of a number. */
  function Decimal(n: nat): (s: seq<Byte>)
    ensures s != [] && Digits(s, 10) && Numeral(s, 10) == n
  {
    if n < 10 then [48 + n] else
      var s := Decimal(n / 10) + [48 + n % 10];
      assert s[..|s| - 1] == Decimal(n / 10);
      s
  }

  // ---------------------------------------------------------------- entities

  const NAMES: seq<(seq<Byte>, Byte)> := [
    ([0x6C, 0x74], LT), ([0x67, 0x74], GT), ([0x61, 0x6D, 0x70], AMP),
    ([0x71, 0x75, 0x6F, 0x74], QUOT), ([0x61, 0x70, 0x6F, 0x73], APOS)]

  /** What stands between '&' and ';': the character data it is for. */
  function Entity(e: seq<Byte>): Option<seq<Byte>> {
    if e == NAMES[0].0 then Some([LT])
    else if e == NAMES[1].0 then Some([GT])
    else if e == NAMES[2].0 then Some([AMP])
    else if e == NAMES[3].0 then Some([QUOT])
    else if e == NAMES[4].0 then Some([APOS])
    else if |e| >= 2 && e[0] == HASH then
      if |e| - 1 >= 16 then None
      else Some(Utf8(if e[1] in {88, 120} then Strtoul(e[2..], 16) else Strtoul(e[1..], 10)))
    else None
  }

  /** memchr: the first position of a byte, or the length. */
  function Find(s: seq<Byte>, c: Byte): (i: nat)
    ensures i <= |s| && (i < |s| ==> s[i] == c)
    ensures forall j :: 0 <= j < i ==> s[j] != c
  {
    if s == [] || s[0] == c then 0 else 1 + Find(s[1..], c)
  }

  function Push(b: seq<Byte>, r: Read<seq<Byte>>): Read<seq<Byte>> {
    match r
    case Done(text, rest) => Done(b + text, rest)
    case Failed(at) => r
  }

  /** read_text. */
  function ReadText(s: seq<Byte>): (r: Read<seq<Byte>>)
    ensures r.Done? ==> |r.rest| <= |s| && (r.rest == [] || r.rest[0] == LT)
    decreases |s|
  {
    if s == [] || s[0] == LT then Done([], s)
    else if s[0] == AMP then
      var i := Find(s, SEMI);
      if i == |s| || i == 0 || Entity(s[1..i]) == None then Failed(s)
      else Push(Entity(s[1..i]).value, ReadText(s[i + 1..]))
    else Push([s[0]], ReadText(s[1..]))
  }
}
