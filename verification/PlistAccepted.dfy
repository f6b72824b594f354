/** Whatever the reader accepts has the form of a loose property list, and nothing else is accepted. */
module PlistAccepted {
  import opened Common
  import opened PlistBase64
  import opened PlistText
  import opened PlistSpelling
  import opened PlistGrammar
  import opened PlistMarkup
  import opened PlistRoundTrip
  import opened PlistLoose

  // ------------------------------------------------------------------- noise

  lemma FirstThenRest(s: seq<Byte>)
    requires s != []
    ensures s == [s[0]] + s[1..]
  {
  }

  lemma {:induction false} SpaceFound(s: seq<Byte>) returns (ws: seq<Byte>)
    ensures s == ws + SkipWs(s) && forall i :: 0 <= i < |ws| ==> IsSpace(ws[i])
  {
    if s == [] || !IsSpace(s[0]) {
      ws := [];
      assert [] + s == s;
    } else {
      FirstThenRest(s);
      hide IsSpace;
      var more := SpaceFound(s[1..]);
      ws := [s[0]] + more;
      Associative([s[0]], more, SkipWs(s[1..]));
    }
  }

  lemma {:induction false} EndFound(s: seq<Byte>, end: seq<Byte>) returns (body: seq<Byte>)
    requires end != [] && AfterText(s, end).Some?
    ensures s == body + end + AfterText(s, end).value && EndsOnce(body, end)
  {
    hide EndsOnce;
    if StartsWith(s, end) {
      body := [];
      assert s == end + s[|end|..];
      assert s == [] + end + s[|end|..];
      NothingBefore(end);
    } else {
      FirstThenRest(s);
      var more := EndFound(s[1..], end);
      body := [s[0]] + more;
      OnceMore(s[0], more, end, AfterText(s, end).value);
    }
  }

  lemma NothingBefore(end: seq<Byte>)
    ensures EndsOnce([], end)
  {
  }

  lemma OnceMore(c: Byte, more: seq<Byte>, end: seq<Byte>, rest: seq<Byte>)
    requires EndsOnce(more, end) && !StartsWith([c] + (more + end + rest), end)
    ensures EndsOnce([c] + more, end) && [c] + (more + end + rest) == [c] + more + end + rest
  {
    var body := [c] + more;
    var s := [c] + (more + end + rest);
    assert s == body + end + rest;
    forall i | 0 <= i < |body|
      ensures !StartsWith((body + end)[i..], end)
    {
      if i == 0 {
        assert (body + end)[0..] == body + end;
        assert s[..|end|] == (body + end)[..|end|];
      } else {
        assert (body + end)[i..] == (more + end)[i - 1..];
      }
    }
  }

  lemma {:induction false} DeclarationFound(s: seq<Byte>, depth: int) returns (body: seq<Byte>)
    requires AfterDeclaration(s, depth).Some?
    ensures s == body + [GT] + AfterDeclaration(s, depth).value && Bracketed(body, depth)
  {
    if s[0] == GT && depth <= 0 {
      body := [];
      assert s == [GT] + s[1..];
      assert s == [] + [GT] + s[1..];
    } else {
      var next := if s[0] == 0x5B then depth + 1 else if s[0] == 0x5D then depth - 1 else depth;
      var more := DeclarationFound(s[1..], next);
      body := [s[0]] + more;
      assert s == [s[0]] + s[1..];
      assert s == [s[0]] + more + [GT] + AfterDeclaration(s, depth).value;
      assert body[1..] == more;
    }
  }

  lemma InstructionFound(s: seq<Byte>, rest: seq<Byte>) returns (n: Noise)
    requires |s| >= 2 && s[0] == LT && s[1] == 0x3F && Prologue(s) == Skipped(rest)
    ensures GoodNoise(n) && !n.Space? && s == RenderNoise(n) + rest
  {
    var all := EndFound(s, INSTRUCTION_END);
    assert s[0] == (all + INSTRUCTION_END + rest)[0] == (if all == [] then 0x3F else all[0]);
    var body := all[1..];
    assert all == [LT] + body;
    n := Instruction(body);
    assert s == [LT] + (body + INSTRUCTION_END + rest);
    assert s[1] == (body + INSTRUCTION_END + rest)[0] == (body + INSTRUCTION_END)[0];
  }

  lemma CommentFound(s: seq<Byte>, rest: seq<Byte>) returns (n: Noise)
    requires |s| >= 2 && s[0] == LT && s[1] != 0x3F && StartsWith(s, COMMENT) && Prologue(s) == Skipped(rest)
    ensures GoodNoise(n) && !n.Space? && s == RenderNoise(n) + rest
  {
    var body := EndFound(s[4..], COMMENT_END);
    n := Comment(body);
    assert s == COMMENT + s[4..];
    assert s == COMMENT + body + COMMENT_END + rest;
  }

  lemma DeclarationPiece(s: seq<Byte>, rest: seq<Byte>) returns (n: Noise)
    requires |s| >= 2 && s[0] == LT && s[1] == 0x21 && !StartsWith(s, COMMENT) && Prologue(s) == Skipped(rest)
    ensures GoodNoise(n) && !n.Space? && s == RenderNoise(n) + rest
  {
    var body := DeclarationFound(s[2..], 0);
    n := Declaration(body);
    assert s == [LT, 0x21] + s[2..];
    assert s == [LT, 0x21] + body + [GT] + rest;
    if |body| >= 2 {
      assert s[..4] == [LT, 0x21] + body[..2];
      assert COMMENT == [LT, 0x21] + [0x2D, 0x2D];
    }
  }

  lemma PieceFound(s: seq<Byte>, rest: seq<Byte>) returns (n: Noise)
    requires Prologue(s) == Skipped(rest)
    ensures GoodNoise(n) && !n.Space? && s == RenderNoise(n) + rest
  {
    hide GoodNoise, RenderNoise;
    if s[1] == 0x3F {
      n := InstructionFound(s, rest);
    } else if StartsWith(s, COMMENT) {
      n := CommentFound(s, rest);
    } else {
      n := DeclarationPiece(s, rest);
    }
  }

  lemma OnePiece(n: Noise, after: seq<Noise>, s: seq<Byte>, rest: seq<Byte>, tail: seq<Byte>)
    requires GoodNoise(n) && AllNoise(after) && s == RenderNoise(n) + rest && rest == RenderNoises(after) + tail
    ensures AllNoise([n] + after) && s == RenderNoises([n] + after) + tail
  {
    hide GoodNoise, RenderNoise;
    assert ([n] + after)[1..] == after;
    Associative(RenderNoise(n), RenderNoises(after), tail);
  }

  lemma PieceSkipped(s: seq<Byte>)
    requires SkipNoise(s).Done?
    ensures var s1 := SkipWs(s);
      match Prologue(s1)
      case Nothing => SkipNoise(s).rest == s1
      case Skipped(rest) => |rest| < |s| && SkipNoise(rest) == SkipNoise(s)
      case Unterminated => false
  {
    hide Prologue;
  }

  /** What the reader skips is noise. */
  lemma {:induction false} NoiseFound(s: seq<Byte>) returns (ns: seq<Noise>)
    requires SkipNoise(s).Done?
    ensures AllNoise(ns) && s == RenderNoises(ns) + SkipNoise(s).rest
    ensures s != [] && !IsSpace(s[0]) ==> ns == [] || !ns[0].Space?
    decreases |s|
  {
    hide SkipNoise, SkipWs, Prologue, GoodNoise, RenderNoise;
    PieceSkipped(s);
    var s1, tail := SkipWs(s), SkipNoise(s).rest;
    var ws := SpaceFound(s);
    var k := Prologue(s1);
    if k.Skipped? {
      var n := PieceFound(s1, k.rest);
      var after := NoiseFound(k.rest);
      OnePiece(n, after, s1, k.rest, tail);
      ns := [n] + after;
    } else {
      ns := [];
      assert [] + s1 == s1;
    }
    if ws != [] {
      SpaceIsGood(ws);
      assert RenderNoise(Space(ws)) == ws by { SpaceIsItself(ws); }
      OnePiece(Space(ws), ns, s, s1, tail);
      ns := [Space(ws)] + ns;
      assert s[0] == ws[0];
    }
  }

  lemma SpaceIsItself(ws: seq<Byte>)
    ensures RenderNoise(Space(ws)) == ws
  {
  }

  lemma SpaceIsGood(ws: seq<Byte>)
    requires forall i :: 0 <= i < |ws| ==> IsSpace(ws[i])
    ensures GoodNoise(Space(ws))
  {
  }

  // -------------------------------------------------------------------- tags

  lemma BodyFound(s: seq<Byte>, closing: bool, tag: Tag, rest: seq<Byte>, noise: seq<Noise>) returns (m: Mark)
    requires TagBody(s, closing) == Done(tag, rest) && |tag.name| < NAME_LIMIT && AllNoise(noise)
    ensures GoodMark(m) && m.noise == noise && tag == TagOf(m, closing) && s == Body(m) + rest
  {
    hide NameLength, Find, AllNoise, LowerAll;
    var n := NameLength(s);
    var k := Find(s[n..], GT);
    m := Mark(noise, s[..n], s[n..n + k]);
    assert |LowerAll(Cut(s[..n]))| == |Cut(s[..n])|;
    assert n <= NAME_LIMIT && Cut(s[..n]) == s[..n];
    CutInFour(s, n, k);
    assert forall j :: 0 <= j < k ==> m.attrs[j] == s[n..][j];
  }

  lemma CutInFour(s: seq<Byte>, n: nat, k: nat)
    requires n + k < |s| && s[n..][k] == GT
    ensures s == s[..n] + s[n..n + k] + [GT] + s[n + k + 1..]
  {
  }

  /** A tag that is read was written as one. */
  lemma TagFound(s: seq<Byte>, tag: Tag, rest: seq<Byte>) returns (m: Mark)
    requires ReadTag(s) == Done(tag, rest) && |tag.name| < NAME_LIMIT
    ensures GoodMark(m) && tag == TagOf(m, tag.closing)
    ensures s == (if tag.closing then RenderClose(m) else RenderOpen(m)) + rest
    ensures s != [] && s[0] == LT ==> GoodAfterText(m)
  {
    hide TagBody, GoodMark, LowerAll;
    var ns := NoiseFound(s);
    var s1 := SkipNoise(s).rest;
    hide SkipNoise;
    if |s1| > 1 && s1[1] == SLASH {
      m := BodyFound(s1[2..], true, tag, rest, ns);
      TagBodyClosing(s1[2..], true);
      assert s1 == [LT, SLASH] + s1[2..];
      Associative([LT, SLASH], Body(m), rest);
      Associative(RenderNoises(ns), [LT, SLASH] + Body(m), rest);
    } else {
      m := BodyFound(s1[1..], false, tag, rest, ns);
      TagBodyClosing(s1[1..], false);
      assert s1 == [LT] + s1[1..];
      Associative([LT], Body(m), rest);
      Associative(RenderNoises(ns), [LT] + Body(m), rest);
    }
  }

  lemma TagBodyClosing(s: seq<Byte>, closing: bool)
    ensures TagBody(s, closing).Done? ==> TagBody(s, closing).value.closing == closing
  {
  }

  /** An element is only closed by a closing tag of its own name. */
  lemma CloseFound(s: seq<Byte>, name: seq<Byte>, rest: seq<Byte>) returns (m: Mark)
    requires ExpectClose(s, name) == Done((), rest) && |name| < NAME_LIMIT
    ensures Closes(m, name) && s == RenderClose(m) + rest
    ensures s != [] && s[0] == LT ==> ClosesText(m, name)
  {
    hide ReadTag, GoodMark;
    m := TagFound(s, ReadTag(s).value, rest);
  }

  // -------------------------------------------------------------------- text

  /** Text that is read consists of bytes and known references. */
  lemma {:induction false} BitsFound(s: seq<Byte>, text: seq<Byte>, rest: seq<Byte>) returns (bits: seq<Bit>)
    requires ReadText(s) == Done(text, rest)
    ensures GoodBits(bits) && s == RenderBits(bits) + rest && BitsMean(bits) == text
    decreases |s|
  {
    if s == [] || s[0] == LT {
      bits := [];
      assert [] + s == s;
    } else {
      var b: Bit;
      var tail: seq<Byte>;
      if s[0] == AMP {
        b := RefFound(s);
        tail := s[Find(s, SEMI) + 1..];
      } else {
        b := Plain(s[0]);
        tail := s[1..];
        assert s == [s[0]] + tail;
      }
      hide Entity, RefMeans, KnownRef;
      var text' := ReadText(tail).value;
      var more := BitsFound(tail, text', rest);
      bits := [b] + more;
      assert bits[1..] == more;
      Associative(RenderBit(b), RenderBits(more), rest);
    }
  }

  lemma RefFound(s: seq<Byte>) returns (b: Bit)
    requires s != [] && s[0] == AMP && ReadText(s).Done?
    ensures GoodBit(b) && Find(s, SEMI) < |s| && s == RenderBit(b) + s[Find(s, SEMI) + 1..]
    ensures ReadText(s) == Push(BitMeans(b), ReadText(s[Find(s, SEMI) + 1..]))
  {
    hide Entity, RefMeans, KnownRef, Find, Push;
    var i := Find(s, SEMI);
    RefRead(s);
    var e := s[1..i];
    b := Ref(e);
    RefIs(e);
    assert s == [AMP] + e + [SEMI] + s[i + 1..];
    assert forall j :: 0 <= j < |e| ==> e[j] == s[j + 1];
  }

  lemma RefRead(s: seq<Byte>)
    requires s != [] && s[0] == AMP && ReadText(s).Done?
    ensures var i := Find(s, SEMI);
      && 0 < i < |s| && Entity(s[1..i]).Some?
      && ReadText(s) == Push(Entity(s[1..i]).value, ReadText(s[i + 1..]))
  {
    hide Entity, Find;
  }

  lemma ElementFound(s: seq<Byte>, name: seq<Byte>, text: seq<Byte>, rest: seq<Byte>)
    returns (bits: seq<Bit>, close: Mark)
    requires Element(s, name) == Done(text, rest) && |name| < NAME_LIMIT
    ensures GoodBits(bits) && ClosesText(close, name)
    ensures s == RenderBits(bits) + RenderClose(close) + rest && TextOf(bits) == text
  {
    hide ReadText, ExpectClose, GoodMark, GoodAfterText, RenderClose;
    var t := ReadText(s).value;
    var s1 := ReadText(s).rest;
    bits := BitsFound(s, t, s1);
    StartsTag(s);
    NothingCloses(name);
    assert ExpectClose(s1, name).Done? && ExpectClose(s1, name).value == ();
    close := CloseFound(s1, name, rest);
    Associative(RenderBits(bits), RenderClose(close), rest);
  }

  lemma StartsTag(s: seq<Byte>)
    ensures ReadText(s).Done? ==> ReadText(s).rest == [] || ReadText(s).rest[0] == LT
  {
  }

  lemma NothingCloses(name: seq<Byte>)
    ensures ExpectClose([], name).Failed?
  {
  }

  // ------------------------------------------------------------------ values

  /** A form was found for a value: its first tag is m, and it stands for v. */
  predicate Forms(x: Loose, m: Mark, s: seq<Byte>, v: Value, rest: seq<Byte>) {
    GoodLoose(x) && x.open == m && s == Inside(x) + rest && Tree(x) == v
  }

  predicate LoopForms(items: seq<LooseItem>, close: Mark, s: seq<Byte>, done: seq<Item>, v: Value, rest: seq<Byte>) {
    && (forall i :: 0 <= i < |items| ==> GoodLooseItem(items[i])) && Closes(close, DICT)
    && s == LooseItems(items) + RenderClose(close) + rest && v == Dict(done + ItemTrees(items))
  }

  predicate ElemForms(elems: seq<Loose>, close: Mark, s: seq<Byte>, done: seq<Value>, v: Value, rest: seq<Byte>) {
    && (forall i :: 0 <= i < |elems| ==> GoodLoose(elems[i])) && Closes(close, ARRAY)
    && s == LooseElems(elems) + RenderClose(close) + rest && v == Array(done + ElemTrees(elems))
  }

  lemma ShortNames()
    ensures |TRUE| < NAME_LIMIT && |FALSE| < NAME_LIMIT && |DICT| < NAME_LIMIT && |ARRAY| < NAME_LIMIT
    ensures |STRING| < NAME_LIMIT && |INTEGER| < NAME_LIMIT && |REAL| < NAME_LIMIT && |DATA| < NAME_LIMIT
    ensures |KEY| < NAME_LIMIT && |PLIST| < NAME_LIMIT
  {
  }

  lemma BoolFound(m: Mark, closing: bool, s: seq<Byte>, v: Value, rest: seq<Byte>) returns (x: Loose)
    requires GoodMark(m) && LowerAll(m.name) in {TRUE, FALSE} && ParseAfterTag(TagOf(m, closing), s) == Done(v, rest)
    ensures Forms(x, m, s, v, rest)
  {
    NamesDiffer();
    ShortNames();
    hide ExpectClose, GoodMark, Ascii, RenderClose, ParseDict, ParseArray, Element;
    var b := LowerAll(m.name) == TRUE;
    if SaysEmpty(m) {
      x := LBool(m, b, None);
      assert s == [] + rest;
    } else {
      assert ExpectClose(s, LowerAll(m.name)).Done? && ExpectClose(s, LowerAll(m.name)).value == ();
      var close := CloseFound(s, LowerAll(m.name), rest);
      x := LBool(m, b, Some(close));
    }
  }

  lemma EmptyFound(m: Mark, nothing: Empty, closing: bool, s: seq<Byte>, v: Value, rest: seq<Byte>)
    returns (x: Loose)
    requires GoodMark(m) && LowerAll(m.name) == EmptyName(nothing) && SaysEmpty(m)
    requires ParseAfterTag(TagOf(m, closing), s) == Done(v, rest)
    ensures Forms(x, m, s, v, rest)
  {
    NamesDiffer();
    hide ExpectClose, GoodMark, Ascii, ParseDict, ParseArray, Element;
    x := LEmpty(m, nothing);
    assert s == [] + rest;
  }

  lemma LeafParts(m: Mark, kind: Leaf, closing: bool, s: seq<Byte>, v: Value, rest: seq<Byte>)
    requires LowerAll(m.name) == LeafName(kind) && !(SaysEmpty(m) && (kind == AString || kind == SomeData))
    requires ParseAfterTag(TagOf(m, closing), s) == Done(v, rest)
    ensures Element(s, LeafName(kind)).Done? && Element(s, LeafName(kind)).rest == rest
    ensures var text := Element(s, LeafName(kind)).value;
      match kind
      case AString => v == Str(text)
      case AnInteger => v == Integer(Strtoll(text))
      case AReal => v == Real(text)
      case SomeData => DecodeLoop(text, 0, 0).Some? && v == Data(DecodeLoop(text, 0, 0).value)
  {
    NamesDiffer();
    hide Element, ExpectClose, Ascii, ParseDict, ParseArray, DecodeLoop, Strtoll;
  }

  lemma LeafFound(m: Mark, kind: Leaf, closing: bool, s: seq<Byte>, v: Value, rest: seq<Byte>)
    returns (x: Loose)
    requires GoodMark(m) && LowerAll(m.name) == LeafName(kind)
    requires !(SaysEmpty(m) && (kind == AString || kind == SomeData))
    requires ParseAfterTag(TagOf(m, closing), s) == Done(v, rest)
    ensures Forms(x, m, s, v, rest)
  {
    hide Element, GoodMark, GoodAfterText, Ascii, RenderClose, RenderBits, ParseAfterTag, DecodeLoop, Strtoll,
      Base64Text, GoodBits;
    ShortNames();
    LeafParts(m, kind, closing, s, v, rest);
    var text := Element(s, LeafName(kind)).value;
    var bits, close := ElementFound(s, LeafName(kind), text, rest);
    DecodesBase64(text, 0, 0);
    x := LLeaf(m, kind, bits, close);
  }

  /** The first tag of a value has one of the names. */
  lemma NameKnown(tag: Tag, s: seq<Byte>)
    requires ParseAfterTag(tag, s).Done?
    ensures tag.name in {TRUE, FALSE, DICT, ARRAY, STRING, INTEGER, REAL, DATA}
  {
    hide Element, ExpectClose, Ascii, ParseDict, ParseArray;
  }

  lemma {:induction false} DictFound(m: Mark, closing: bool, s: seq<Byte>, v: Value, rest: seq<Byte>) returns (x: Loose)
    requires GoodMark(m) && LowerAll(m.name) == DICT && !SaysEmpty(m)
    requires ParseAfterTag(TagOf(m, closing), s) == Done(v, rest)
    ensures Forms(x, m, s, v, rest)
    decreases |s|, 2
  {
    hide GoodMark, Ascii, ParseDict, ParseAfterTag, RenderClose, LooseItems;
    DictIs(TagOf(m, closing), s);
    var items, close := ItemsFound(s, [], v, rest);
    assert [] + ItemTrees(items) == ItemTrees(items);
    x := LDict(m, items, close);
  }

  lemma {:induction false} ArrayFound(m: Mark, closing: bool, s: seq<Byte>, v: Value, rest: seq<Byte>)
    returns (x: Loose)
    requires GoodMark(m) && LowerAll(m.name) == ARRAY && !SaysEmpty(m)
    requires ParseAfterTag(TagOf(m, closing), s) == Done(v, rest)
    ensures Forms(x, m, s, v, rest)
    decreases |s|, 2
  {
    hide GoodMark, Ascii, ParseArray, ParseAfterTag, RenderClose, LooseElems;
    ArrayIs(TagOf(m, closing), s);
    var elems, close := ElemsFound(s, [], v, rest);
    assert [] + ElemTrees(elems) == ElemTrees(elems);
    x := LArray(m, elems, close);
  }

  /** What is read after a value's first tag has a form. */
  lemma {:induction false} FormFound(m: Mark, closing: bool, s: seq<Byte>, v: Value, rest: seq<Byte>) returns (x: Loose)
    requires GoodMark(m) && ParseAfterTag(TagOf(m, closing), s) == Done(v, rest)
    ensures Forms(x, m, s, v, rest)
    decreases |s|, 3
  {
    hide GoodMark, Ascii, ParseAfterTag, Forms, LowerAll;
    NameKnown(TagOf(m, closing), s);
    var name := LowerAll(m.name);
    if name == TRUE || name == FALSE {
      x := BoolFound(m, closing, s, v, rest);
    } else if name == DICT {
      if SaysEmpty(m) {
        x := EmptyFound(m, NoItems, closing, s, v, rest);
      } else {
        x := DictFound(m, closing, s, v, rest);
      }
    } else if name == ARRAY {
      if SaysEmpty(m) {
        x := EmptyFound(m, NoElems, closing, s, v, rest);
      } else {
        x := ArrayFound(m, closing, s, v, rest);
      }
    } else if name == STRING {
      if SaysEmpty(m) {
        x := EmptyFound(m, NoText, closing, s, v, rest);
      } else {
        x := LeafFound(m, AString, closing, s, v, rest);
      }
    } else if name == DATA {
      if SaysEmpty(m) {
        x := EmptyFound(m, NoBytes, closing, s, v, rest);
      } else {
        x := LeafFound(m, SomeData, closing, s, v, rest);
      }
    } else if name == INTEGER {
      x := LeafFound(m, AnInteger, closing, s, v, rest);
    } else {
      x := LeafFound(m, AReal, closing, s, v, rest);
    }
  }

  lemma {:induction false} ValueFound(s: seq<Byte>, v: Value, rest: seq<Byte>) returns (x: Loose)
    requires ParseValue(s) == Done(v, rest)
    ensures GoodLoose(x) && s == RenderLoose(x) + rest && Tree(x) == v
    decreases |s|, 0
  {
    hide ReadTag, ParseAfterTag, GoodMark, GoodLoose, Inside, Tree, LowerAll;
    var tag, s1 := ReadTag(s).value, ReadTag(s).rest;
    TagShrinks(s);
    assert ParseAfterTag(tag, s1) == Done(v, rest) && !tag.closing;
    NameKnown(tag, s1);
    ShortNames();
    hide Ascii;
    var m := TagFound(s, tag, s1);
    x := FormFound(m, false, s1, v, rest);
    Associative(RenderOpen(m), Inside(x), rest);
  }

  lemma TagShrinks(s: seq<Byte>)
    ensures ReadTag(s).Done? ==> |ReadTag(s).rest| < |s|
  {
  }

  lemma ElementShrinks(s: seq<Byte>, name: seq<Byte>)
    ensures Element(s, name).Done? ==> |Element(s, name).rest| < |s|
  {
  }

  lemma ValueShrinks(s: seq<Byte>)
    ensures ParseValue(s).Done? ==> |ParseValue(s).rest| < |s|
  {
  }

  /** What a turn of the dictionary loop that does not fail has read. */
  lemma DictTurn(s: seq<Byte>, done: seq<Item>, v: Value, rest: seq<Byte>)
    requires ParseDict(s, done) == Done(v, rest)
    ensures ReadTag(s).Done?
    ensures var tag, s1 := ReadTag(s).value, ReadTag(s).rest;
      if tag.closing then tag.name == DICT && v == Dict(done) && rest == s1
      else
        && tag.name == KEY && Element(s1, KEY).Done? && ParseValue(Element(s1, KEY).rest).Done?
        && var s2 := Element(s1, KEY).rest;
           ParseDict(ParseValue(s2).rest, done + [Item(Element(s1, KEY).value, ParseValue(s2).value)]) == Done(v, rest)
  {
    NamesDiffer();
    hide ReadTag, Element, ParseValue, Ascii;
  }

  lemma {:induction false} ItemsFound(s: seq<Byte>, done: seq<Item>, v: Value, rest: seq<Byte>)
    returns (items: seq<LooseItem>, close: Mark)
    requires ParseDict(s, done) == Done(v, rest)
    ensures LoopForms(items, close, s, done, v, rest)
    decreases |s|, 1
  {
    hide ReadTag, Element, ParseValue, ParseDict, GoodMark, GoodAfterText, GoodBits, GoodLoose, Inside, Tree, Ascii,
      LowerAll, RenderOpen, RenderClose, RenderBits, TextOf;
    DictTurn(s, done, v, rest);
    ShortNames();
    TagShrinks(s);
    var tag, s1 := ReadTag(s).value, ReadTag(s).rest;
    var m := TagFound(s, tag, s1);
    if tag.closing {
      items, close := [], m;
      assert LooseItems([]) + RenderClose(m) == RenderClose(m) && done + ItemTrees([]) == done;
    } else {
      ElementShrinks(s1, KEY);
      var key, s2 := Element(s1, KEY).value, Element(s1, KEY).rest;
      var bits, end := ElementFound(s1, KEY, key, s2);
      ValueShrinks(s2);
      var value, s3 := ParseValue(s2).value, ParseValue(s2).rest;
      var x := ValueFound(s2, value, s3);
      var more: seq<LooseItem>;
      more, close := ItemsFound(s3, done + [Item(key, value)], v, rest);
      var item := LooseItem(m, bits, end, x);
      items := [item] + more;
      ItemPutTogether(item, more, close, s, s1, s2, s3, rest);
      assert items[1..] == more && GoodLooseItem(item);
      assert done + [Item(key, value)] + ItemTrees(more) == done + ItemTrees(items);
    }
  }

  lemma ItemPutTogether(item: LooseItem, more: seq<LooseItem>, close: Mark, s: seq<Byte>, s1: seq<Byte>, s2: seq<Byte>,
                        s3: seq<Byte>, rest: seq<Byte>)
    requires s == RenderOpen(item.open) + s1 && s1 == RenderBits(item.bits) + RenderClose(item.close) + s2
    requires s2 == RenderLoose(item.value) + s3 && s3 == LooseItems(more) + RenderClose(close) + rest
    ensures s == LooseItems([item] + more) + RenderClose(close) + rest
  {
    hide RenderOpen, RenderClose, RenderBits, RenderLoose;
    var a, b, c := RenderOpen(item.open), RenderBits(item.bits) + RenderClose(item.close), RenderLoose(item.value);
    var d, e := LooseItems(more), RenderClose(close) + rest;
    assert ([item] + more)[1..] == more;
    assert LooseItems([item] + more) == (a + b) + (c + d);
    Associative(d, RenderClose(close), rest);
    Associative((a + b) + (c + d), RenderClose(close), rest);
    FourParts(a, b, c, d, e);
  }

  lemma FourParts(a: seq<Byte>, b: seq<Byte>, c: seq<Byte>, d: seq<Byte>, e: seq<Byte>)
    ensures a + (b + (c + (d + e))) == (a + b) + (c + d) + e
  {
  }

  lemma {:induction false} ElemsFound(s: seq<Byte>, done: seq<Value>, v: Value, rest: seq<Byte>)
    returns (elems: seq<Loose>, close: Mark)
    requires ParseArray(s, done) == Done(v, rest)
    ensures ElemForms(elems, close, s, done, v, rest)
    decreases |s|, 1
  {
    hide ReadTag, SkipNoise, ParseValue, ParseArray, GoodMark, GoodLoose, Inside, Tree, Ascii, LowerAll, RenderClose;
    ArrayReadsATag(s, done);
    ArrayTurn(s, done);
    ShortNames();
    var tag, s1 := ReadTag(s).value, ReadTag(s).rest;
    if tag.closing && tag.name == ARRAY {
      var m := TagFound(s, tag, s1);
      elems, close := [], m;
      assert LooseElems([]) + RenderClose(m) == RenderClose(m) && done + ElemTrees([]) == done;
    } else {
      ValueShrinks(s);
      var value, s2 := ParseValue(s).value, ParseValue(s).rest;
      var x := ValueFound(s, value, s2);
      var more: seq<Loose>;
      more, close := ElemsFound(s2, done + [value], v, rest);
      elems := [x] + more;
      assert elems[1..] == more;
      Associative(LooseElems(more), RenderClose(close), rest);
      Associative(RenderLoose(x), LooseElems(more), RenderClose(close) + rest);
      Associative(RenderLoose(x) + LooseElems(more), RenderClose(close), rest);
      assert done + [value] + ElemTrees(more) == done + ElemTrees(elems);
    }
  }

  lemma ArrayReadsATag(s: seq<Byte>, done: seq<Value>)
    requires ParseArray(s, done).Done?
    ensures ReadTag(s).Done?
  {
    var save := SkipNoise(s).rest;
    assert SkipWs(save) == save;
    hide ParseValue, TagBody;
  }

  // --------------------------------------------------------------- documents

  lemma DocumentParts(s: seq<Byte>, v: Value, rest: seq<Byte>)
    requires ParseString(s) == Done(v, rest)
    ensures ReadTag(s).Done?
    ensures var tag, s1 := ReadTag(s).value, ReadTag(s).rest;
      if tag.name == PLIST && !tag.closing then
        ParseValue(s1).Done? && ParseValue(s1).value == v && ExpectClose(ParseValue(s1).rest, PLIST) == Done((), rest)
      else ParseAfterTag(tag, s1) == Done(v, rest)
  {
    hide ReadTag, ParseValue, ParseAfterTag, ExpectClose;
    var tag, s1 := ReadTag(s).value, ReadTag(s).rest;
    if tag.name == PLIST && !tag.closing {
      assert ExpectClose(ParseValue(s1).rest, PLIST).Done? && ExpectClose(ParseValue(s1).rest, PLIST).value == ();
    }
  }

  /** What is accepted has a form. */
  lemma DocumentFound(s: seq<Byte>, v: Value, rest: seq<Byte>) returns (d: LooseDocument)
    requires ParseString(s) == Done(v, rest)
    ensures GoodLooseDocument(d) && s == RenderLooseDocument(d) + rest && Tree(d.x) == v
  {
    hide ParseString, ReadTag, ParseValue, ParseAfterTag, ExpectClose, GoodMark, GoodLoose, Inside, Tree, LowerAll,
      RenderOpen, RenderClose, RenderLoose;
    DocumentParts(s, v, rest);
    ShortNames();
    var tag, s1 := ReadTag(s).value, ReadTag(s).rest;
    if tag.name == PLIST && !tag.closing {
      var open := TagFound(s, tag, s1);
      var s2 := ParseValue(s1).rest;
      var x := ValueFound(s1, v, s2);
      var close := CloseFound(s2, PLIST, rest);
      d := LWrapped(open, x, close);
      Associative(RenderLoose(x), RenderClose(close), rest);
      Associative(RenderOpen(open), RenderLoose(x) + RenderClose(close), rest);
    } else {
      NameKnown(tag, s1);
      hide Ascii;
      var open := TagFound(s, tag, s1);
      var x := FormFound(open, tag.closing, s1, v, rest);
      d := LBare(x, tag.closing);
      Associative(if tag.closing then RenderClose(open) else RenderOpen(open), Inside(x), rest);
    }
  }

  /**
   * plist_parse_string accepts exactly the documents of the loose form, each as
   * its tree, and stops exactly where the document ends. Everything else is
   * refused.
   */
  lemma AcceptsExactlyLooseDocuments(s: seq<Byte>, v: Value, rest: seq<Byte>)
    ensures ParseString(s) == Done(v, rest) <==>
      exists d :: GoodLooseDocument(d) && s == RenderLooseDocument(d) + rest && Tree(d.x) == v
  {
    hide ParseString, GoodLoose, Closes, RenderLooseDocument, Tree;
    if ParseString(s) == Done(v, rest) {
      var d := DocumentFound(s, v, rest);
    }
    if d :| GoodLooseDocument(d) && s == RenderLooseDocument(d) + rest && Tree(d.x) == v {
      LooseDocumentReads(d, rest);
    }
  }
}
