/**
 * The ways to write character data, and that read_text reads each of them
 * back: raw, as a named entity, as a decimal or hexadecimal reference.
 */
module PlistSpelling {
  import opened Common
  import opened PlistText

  /** How one character is written. */
  datatype Spelling = Raw(c: Byte) | Named(c: Byte) | Dec(digits: seq<Byte>) | Hex(x: Byte, digits: seq<Byte>)

  predicate Good(sp: Spelling) {
    match sp
    case Raw(c) => c !in {0, LT, AMP}
    case Named(c) => c in {LT, GT, AMP, QUOT, APOS}
    case Dec(ds) => ds != [] && |ds| <= 15 && Digits(ds, 10) && Numeral(ds, 10) > 0 && Scalar(Numeral(ds, 10))
    case Hex(x, ds) =>
      x in {88, 120} && ds != [] && |ds| <= 14 && Digits(ds, 16) && Numeral(ds, 16) > 0 && Scalar(Numeral(ds, 16))
  }

  function Name(c: Byte): seq<Byte>
    requires c in {LT, GT, AMP, QUOT, APOS}
  {
    if c == LT then NAMES[0].0 else if c == GT then NAMES[1].0 else if c == AMP then NAMES[2].0
    else if c == QUOT then NAMES[3].0 else NAMES[4].0
  }

  /** What stands between '&' and ';'. */
  function Reference(sp: Spelling): seq<Byte>
    requires Good(sp) && !sp.Raw?
  {
    match sp
    case Named(c) => Name(c)
    case Dec(ds) => [HASH] + ds
    case Hex(x, ds) => [HASH, x] + ds
  }

  function RenderChar(sp: Spelling): seq<Byte>
    requires Good(sp)
  {
    if sp.Raw? then [sp.c] else [AMP] + Reference(sp) + [SEMI]
  }

  /** The bytes a spelled character stands for; a number stands for the UTF-8 form of its scalar value. */
  function CharMeans(sp: Spelling): seq<Byte>
    requires Good(sp)
  {
    match sp
    case Raw(c) => [c]
    case Named(c) => [c]
    case Dec(ds) => Utf8(Numeral(ds, 10))
    case Hex(_, ds) => Utf8(Numeral(ds, 16))
  }

  predicate AllGood(text: seq<Spelling>) {
    forall sp :: sp in text ==> Good(sp)
  }

  function RenderAll(text: seq<Spelling>): seq<Byte>
    requires AllGood(text)
  {
    if text == [] then [] else RenderChar(text[0]) + RenderAll(text[1..])
  }

  function Content(text: seq<Spelling>): seq<Byte>
    requires AllGood(text)
  {
    if text == [] then [] else CharMeans(text[0]) + Content(text[1..])
  }

  lemma MeaningIsNulFree(sp: Spelling)
    requires Good(sp)
    ensures NulFree(CharMeans(sp))
  {
    match sp
    case Raw(_) =>
    case Named(_) =>
    case Dec(ds) => Utf8IsRfc3629(Numeral(ds, 10), []);
    case Hex(_, ds) => Utf8IsRfc3629(Numeral(ds, 16), []);
  }

  lemma {:induction false} ContentIsNulFree(text: seq<Spelling>)
    requires AllGood(text)
    ensures NulFree(Content(text))
  {
    hide Good, CharMeans;
    if text != [] {
      MeaningIsNulFree(text[0]);
      ContentIsNulFree(text[1..]);
    }
  }

  // ----------------------------------------------------------------- reading

  lemma {:induction false} FindAt(a: seq<Byte>, c: Byte, b: seq<Byte>)
    requires c !in a
    ensures Find(a + [c] + b, c) == |a|
  {
    if a != [] {
      assert (a + [c] + b)[1..] == a[1..] + [c] + b;
      FindAt(a[1..], c, b);
    }
  }

  lemma NotADigit(ds: seq<Byte>, base: nat, c: Byte)
    requires Digits(ds, base) && Digit(c) == None
    ensures c !in ds
  {
    forall i | 0 <= i < |ds|
      ensures ds[i] != c
    {
      assert IsDigit(ds[i], base);
    }
  }

  /** No space, sign or 0x stands before a plain numeral. */
  lemma NoPrefix(ds: seq<Byte>, base: nat)
    requires base in {10, 16} && ds != [] && Digits(ds, base)
    ensures TakeSign(SkipWs(CString(ds))) == (false, ds)
    ensures |ds| > 1 ==> ds[1] !in {88, 120}
  {
    NotADigit(ds, base, 0);
    assert IsDigit(ds[0], base);
    if |ds| > 1 {
      assert IsDigit(ds[1], base);
    }
    hide Digits, CString;
    assert CString(ds) == ds;
  }

  lemma TakesAll(ds: seq<Byte>, base: nat)
    requires Digits(ds, base)
    ensures TakeDigits(ds, base, 0) == Numeral(ds, base)
  {
    assert [] + ds == ds;
    TakesNumeral([], ds, base);
  }

  /** strtoul of a plain numeral is its value. */
  lemma StrtoulReads(ds: seq<Byte>, base: nat)
    requires base in {10, 16} && ds != [] && Digits(ds, base) && Numeral(ds, base) < TWO_64
    ensures Strtoul(ds, base) == Numeral(ds, base)
  {
    NoPrefix(ds, base);
    TakesAll(ds, base);
    hide Digits, Numeral, TakeDigits, TakeSign, SkipWs, CString;
  }

  lemma EntityMeans(sp: Spelling)
    requires Good(sp) && !sp.Raw?
    ensures Entity(Reference(sp)) == Some(CharMeans(sp)) && SEMI !in Reference(sp)
  {
    hide Entity, Utf8, Numeral, Digits;
    match sp
    case Named(c) => NamedMeans(c);
    case Dec(ds) => DecMeans(ds);
    case Hex(x, ds) => HexMeans(x, ds);
  }

  lemma DecMeans(ds: seq<Byte>)
    requires Good(Dec(ds))
    ensures Entity([HASH] + ds) == Some(Utf8(Numeral(ds, 10))) && SEMI !in [HASH] + ds
  {
    hide Entity, Utf8, Strtoul, Numeral;
    assert IsDigit(ds[0], 10);
    StrtoulReads(ds, 10);
    NotADigit(ds, 10, SEMI);
    NumericEntity(ds);
  }

  lemma HexMeans(x: Byte, ds: seq<Byte>)
    requires Good(Hex(x, ds))
    ensures Entity([HASH, x] + ds) == Some(Utf8(Numeral(ds, 16))) && SEMI !in [HASH, x] + ds
  {
    hide Entity, Utf8, Strtoul, Numeral;
    StrtoulReads(ds, 16);
    NotADigit(ds, 16, SEMI);
    NumericEntity([x] + ds);
    assert [HASH, x] + ds == [HASH] + ([x] + ds);
    assert ([x] + ds)[1..] == ds;
  }

  lemma NumericEntity(number: seq<Byte>)
    requires 1 <= |number| <= 15
    ensures Entity([HASH] + number) ==
      Some(Utf8(if number[0] in {88, 120} then Strtoul(number[1..], 16) else Strtoul(number, 10)))
  {
    hide Utf8, Strtoul;
    var e := [HASH] + number;
    assert e[1..] == number && e[2..] == number[1..];
    assert NAMES[0].0[0] != HASH && NAMES[1].0[0] != HASH && NAMES[2].0[0] != HASH;
    assert NAMES[3].0[0] != HASH && NAMES[4].0[0] != HASH;
  }

  lemma NamedMeans(c: Byte)
    requires c in {LT, GT, AMP, QUOT, APOS}
    ensures Entity(Name(c)) == Some([c]) && SEMI !in Name(c)
  {
    assert NAMES[0].0[0] == 0x6C && NAMES[1].0[0] == 0x67 && NAMES[3].0[0] == 0x71;
    assert |NAMES[2].0| == 3 && |NAMES[4].0| == 4;
  }

  lemma ReadReference(s: seq<Byte>, i: nat, b: seq<Byte>)
    requires s != [] && s[0] == AMP && 0 < i < |s| && Find(s, SEMI) == i && Entity(s[1..i]) == Some(b)
    ensures ReadText(s) == Push(b, ReadText(s[i + 1..]))
  {
    hide Entity, Find;
  }

  lemma ReadRaw(c: Byte, rest: seq<Byte>)
    requires Good(Raw(c))
    ensures ReadText([c] + rest) == Push([c], ReadText(rest))
  {
    assert ([c] + rest)[1..] == rest;
    hide Push;
  }

  /** Where a reference's text and its end are. */
  lemma ReferenceStands(sp: Spelling, rest: seq<Byte>)
    requires Good(sp) && !sp.Raw? && SEMI !in Reference(sp)
    ensures var e, s := Reference(sp), RenderChar(sp) + rest;
      && |s| > 1 + |e| && s[0] == AMP && Find(s, SEMI) == 1 + |e|
      && s[1..1 + |e|] == e && s[|e| + 2..] == rest
  {
    hide Good, Reference;
    var e := Reference(sp);
    var s := RenderChar(sp) + rest;
    assert s == ([AMP] + e) + [SEMI] + rest;
    hide RenderChar;
    FindAt([AMP] + e, SEMI, rest);
    assert s[1..1 + |e|] == e;
    assert s[|e| + 2..] == rest;
  }

  /** One spelled character in front of anything. */
  lemma ReadOne(sp: Spelling, rest: seq<Byte>)
    requires Good(sp)
    ensures ReadText(RenderChar(sp) + rest) == Push(CharMeans(sp), ReadText(rest))
  {
    if sp.Raw? {
      ReadRaw(sp.c, rest);
    } else {
      EntityMeans(sp);
      hide Good, Entity, Reference, CharMeans, RenderChar, ReadText, Find, Push;
      ReferenceStands(sp, rest);
      ReadReference(RenderChar(sp) + rest, 1 + |Reference(sp)|, CharMeans(sp));
    }
  }

  lemma Associative(a: seq<Byte>, b: seq<Byte>, c: seq<Byte>)
    ensures a + b + c == a + (b + c)
  {
  }

  /** Character data in any mixture of spellings is read back, up to the next tag. */
  lemma {:induction false} TextRoundTrip(text: seq<Spelling>, rest: seq<Byte>)
    requires AllGood(text) && (rest == [] || rest[0] == LT)
    ensures ReadText(RenderAll(text) + rest) == Done(Content(text), rest)
  {
    if text == [] {
      assert RenderAll(text) + rest == rest;
    } else {
      hide RenderChar, CharMeans, ReadText, Good;
      Associative(RenderChar(text[0]), RenderAll(text[1..]), rest);
      ReadOne(text[0], RenderAll(text[1..]) + rest);
      TextRoundTrip(text[1..], rest);
    }
  }

  /** Every NUL-free byte string can be written. */
  function Plain(text: seq<Byte>): (r: seq<Spelling>)
    requires NulFree(text)
    ensures AllGood(r)
  {
    if text == [] then []
    else
      assert forall c :: c in text[1..] ==> c in text;
      [if text[0] in {LT, AMP} then Named(text[0]) else Raw(text[0])] + Plain(text[1..])
  }

  lemma {:induction false} PlainMeans(text: seq<Byte>)
    requires NulFree(text)
    ensures Content(Plain(text)) == text
  {
    if text != [] {
      assert forall c :: c in text[1..] ==> c in text;
      PlainMeans(text[1..]);
      var r := Plain(text);
      assert r[1..] == Plain(text[1..]);
      assert text == [text[0]] + text[1..];
    }
  }

  /** Every scalar value but NUL has a decimal reference. */
  lemma DecimalReference(cp: nat)
    requires Scalar(cp) && cp > 0
    ensures Good(Dec(Decimal(cp))) && CharMeans(Dec(Decimal(cp))) == Utf8(cp)
  {
    DecimalLength(cp, 7);
  }

  lemma {:induction false} DecimalLength(n: nat, k: nat)
    requires k > 0 && n < Power10(k)
    ensures |Decimal(n)| <= k
  {
    if n >= 10 {
      DecimalLength(n / 10, k - 1);
    }
  }

  function Power10(k: nat): nat {
    if k == 0 then 1 else 10 * Power10(k - 1)
  }
}
