/** The reader is total, and never leaves its buffer: wherever it stops, what is left is a suffix of the input. */
module PlistCursor {
  import opened Common
  import opened PlistBase64
  import opened PlistText
  import opened PlistGrammar

  /** Where a reading function stopped, or failed. */
  function End<T>(r: Read<T>): seq<Byte> {
    if r.Done? then r.rest else r.at
  }

  lemma Drop(s: seq<Byte>, n: nat)
    requires n <= |s|
    ensures Suffix(s[n..], s)
  {
  }

  lemma {:induction false} SkipWsInside(s: seq<Byte>)
    ensures Suffix(SkipWs(s), s)
  {
    if s != [] && IsSpace(s[0]) {
      SkipWsInside(s[1..]);
      Drop(s, 1);
      SuffixOfSuffix(SkipWs(s), s[1..], s);
    }
  }

  lemma {:induction false} AfterTextInside(s: seq<Byte>, t: seq<Byte>)
    requires t != [] && AfterText(s, t).Some?
    ensures Suffix(AfterText(s, t).value, s)
  {
    if StartsWith(s, t) {
      Drop(s, |t|);
    } else {
      AfterTextInside(s[1..], t);
      SuffixOfSuffix(AfterText(s, t).value, s[1..], s);
    }
  }

  lemma {:induction false} AfterDeclarationInside(s: seq<Byte>, depth: int)
    requires AfterDeclaration(s, depth).Some?
    ensures Suffix(AfterDeclaration(s, depth).value, s)
  {
    if !(s[0] == GT && depth <= 0) {
      AfterDeclarationInside(s[1..], if s[0] == 0x5B then depth + 1 else if s[0] == 0x5D then depth - 1 else depth);
      SuffixOfSuffix(AfterDeclaration(s, depth).value, s[1..], s);
    }
  }

  lemma PrologueInside(s: seq<Byte>)
    requires Prologue(s).Skipped?
    ensures Suffix(Prologue(s).rest, s)
  {
    hide Suffix;
    Drop(s, 0);
    if s[1] == 0x3F {
      AfterTextInside(s, INSTRUCTION_END);
    } else if StartsWith(s, COMMENT) {
      AfterTextInside(s[4..], COMMENT_END);
      Drop(s, 4);
      SuffixOfSuffix(Prologue(s).rest, s[4..], s);
    } else {
      AfterDeclarationInside(s[2..], 0);
      Drop(s, 2);
      SuffixOfSuffix(Prologue(s).rest, s[2..], s);
    }
  }

  lemma {:induction false} SkipNoiseInside(s: seq<Byte>)
    ensures Suffix(End(SkipNoise(s)), s)
    decreases |s|
  {
    hide Suffix, Prologue;
    var s1 := SkipWs(s);
    SkipWsInside(s);
    if Prologue(s1).Skipped? {
      PrologueInside(s1);
      SuffixOfSuffix(Prologue(s1).rest, s1, s);
      SkipNoiseInside(Prologue(s1).rest);
      SuffixOfSuffix(End(SkipNoise(s)), Prologue(s1).rest, s);
    }
  }

  lemma TagBodyInside(s: seq<Byte>, closing: bool)
    ensures Suffix(End(TagBody(s, closing)), s)
  {
    hide Suffix;
    var n := NameLength(s);
    Drop(s, 0);
    Drop(s, n);
    assert s[0..] == s;
    var k := Find(s[n..], GT);
    if k < |s| - n {
      Drop(s, n + k + 1);
    }
  }

  lemma ReadTagInside(s: seq<Byte>)
    ensures Suffix(End(ReadTag(s)), s)
  {
    hide Suffix, SkipNoise, TagBody;
    SkipNoiseInside(s);
    if SkipNoise(s).Done? {
      var s1 := SkipNoise(s).rest;
      if s1 != [] {
        var n := if |s1| > 1 && s1[1] == SLASH then 2 else 1;
        Drop(s1, n);
        SuffixOfSuffix(s1[n..], s1, s);
        TagBodyInside(s1[n..], n == 2);
        SuffixOfSuffix(End(TagBody(s1[n..], n == 2)), s1[n..], s);
      }
    }
  }

  lemma {:induction false} ReadTextInside(s: seq<Byte>)
    ensures Suffix(End(ReadText(s)), s)
    decreases |s|
  {
    hide Suffix, Entity, Find;
    Drop(s, 0);
    assert s[0..] == s;
    if s != [] && s[0] != LT {
      var n := if s[0] == AMP then Find(s, SEMI) + 1 else 1;
      if n <= |s| {
        ReadTextInside(s[n..]);
        Drop(s, n);
        SuffixOfSuffix(End(ReadText(s[n..])), s[n..], s);
      }
    }
  }

  lemma ExpectCloseInside(s: seq<Byte>, name: seq<Byte>)
    ensures Suffix(End(ExpectClose(s, name)), s)
  {
    hide ReadTag;
    ReadTagInside(s);
  }

  lemma ElementInside(s: seq<Byte>, name: seq<Byte>)
    ensures Suffix(End(Element(s, name)), s)
  {
    hide Suffix, ReadText, ExpectClose;
    ReadTextInside(s);
    if ReadText(s).Done? {
      ExpectCloseInside(ReadText(s).rest, name);
      SuffixOfSuffix(End(Element(s, name)), ReadText(s).rest, s);
    }
  }

  lemma ParseLeafInside(tag: Tag, s: seq<Byte>)
    ensures Suffix(End(ParseLeaf(tag, s)), s)
  {
    hide Suffix, Element, ExpectClose, Ascii;
    Drop(s, 0);
    assert s[0..] == s;
    ExpectCloseInside(s, tag.name);
    ElementInside(s, tag.name);
  }

  lemma {:induction false} ParseAfterTagInside(tag: Tag, s: seq<Byte>)
    ensures Suffix(End(ParseAfterTag(tag, s)), s)
    decreases |s|, 2
  {
    hide Suffix, ParseLeaf, ParseDict, ParseArray, Ascii;
    Drop(s, 0);
    assert s[0..] == s;
    ParseDictInside(s, []);
    ParseArrayInside(s, []);
    ParseLeafInside(tag, s);
  }

  lemma {:induction false} ParseDictInside(s: seq<Byte>, items: seq<Item>)
    ensures Suffix(End(ParseDict(s, items)), s)
    decreases |s|, 1
  {
    hide Suffix, ReadTag, Element, ParseValue, Ascii;
    ReadTagInside(s);
    if ReadTag(s).Done? {
      var s1 := ReadTag(s).rest;
      ElementInside(s1, KEY);
      SuffixOfSuffix(End(Element(s1, KEY)), s1, s);
      if Element(s1, KEY).Done? {
        var s2 := Element(s1, KEY).rest;
        ParseValueInside(s2);
        SuffixOfSuffix(End(ParseValue(s2)), s2, s);
        if ParseValue(s2).Done? {
          var s3, items' := ParseValue(s2).rest, items + [Item(Element(s1, KEY).value, ParseValue(s2).value)];
          ParseDictInside(s3, items');
          SuffixOfSuffix(End(ParseDict(s3, items')), s3, s);
        }
      }
    }
  }

  lemma {:induction false} ParseArrayInside(s: seq<Byte>, elems: seq<Value>)
    ensures Suffix(End(ParseArray(s, elems)), s)
    decreases |s|, 1
  {
    hide Suffix, ReadTag, SkipNoise, ParseValue, Ascii;
    SkipNoiseInside(s);
    if SkipNoise(s).Done? {
      var save := SkipNoise(s).rest;
      ReadTagInside(save);
      SuffixOfSuffix(End(ReadTag(save)), save, s);
      ParseValueInside(save);
      SuffixOfSuffix(End(ParseValue(save)), save, s);
      if ParseValue(save).Done? {
        var rest, elems' := ParseValue(save).rest, elems + [ParseValue(save).value];
        ParseArrayInside(rest, elems');
        SuffixOfSuffix(End(ParseArray(rest, elems')), rest, s);
      }
    }
  }

  lemma {:induction false} ParseValueInside(s: seq<Byte>)
    ensures Suffix(End(ParseValue(s)), s)
    decreases |s|, 0
  {
    hide Suffix, ReadTag, ParseAfterTag;
    ReadTagInside(s);
    if ReadTag(s).Done? {
      ParseAfterTagInside(ReadTag(s).value, ReadTag(s).rest);
      SuffixOfSuffix(End(ParseAfterTag(ReadTag(s).value, ReadTag(s).rest)), ReadTag(s).rest, s);
    }
  }

  /** On every byte string the parser stops, with a value or an error, at a place inside the string. */
  lemma ParseStringInside(s: seq<Byte>)
    ensures Suffix(End(ParseString(s)), s)
  {
    hide Suffix, ReadTag, ParseAfterTag, ParseValue, ExpectClose, Ascii;
    ReadTagInside(s);
    if ReadTag(s).Done? {
      var s1 := ReadTag(s).rest;
      ParseAfterTagInside(ReadTag(s).value, s1);
      SuffixOfSuffix(End(ParseAfterTag(ReadTag(s).value, s1)), s1, s);
      ParseValueInside(s1);
      SuffixOfSuffix(End(ParseValue(s1)), s1, s);
      if ParseValue(s1).Done? {
        ExpectCloseInside(ParseValue(s1).rest, PLIST);
        SuffixOfSuffix(End(ExpectClose(ParseValue(s1).rest, PLIST)), ParseValue(s1).rest, s);
      }
    }
  }
}
