/**
 * Where a property list is refused: at each kind of fault, inside any dictionaries
 * and arrays, the reader fails at a place that is stated here.
 */
module PlistErrors {
  import opened Common
  import opened PlistBase64
  import opened PlistText
  import opened PlistSpelling
  import opened PlistGrammar
  import opened PlistMarkup
  import opened PlistRoundTrip
  import opened PlistLoose

  // --------------------------------------------------- no tag can be read here

  /** What stands where a tag should: nothing like one, a nameless one, one without an end, or endless noise. */
  datatype TagFault =
    | NoTag(noise: seq<Noise>, t: seq<Byte>)
    | NoName(noise: seq<Noise>, slash: bool, t: seq<Byte>)
    | NoEnd(noise: seq<Noise>, slash: bool, name: seq<Byte>, t: seq<Byte>)
    | Endless(noise: seq<Noise>, t: seq<Byte>)

  predicate Nowhere(t: seq<Byte>, end: seq<Byte>) {
    forall i :: 0 <= i <= |t| ==> !StartsWith(t[i..], end)
  }

  /** A declaration that has no '>' outside its brackets. */
  predicate NeverEnds(t: seq<Byte>, depth: int) {
    t == [] ||
    (!(t[0] == GT && depth <= 0) &&
     NeverEnds(t[1..], if t[0] == 0x5B then depth + 1 else if t[0] == 0x5D then depth - 1 else depth))
  }

  predicate EndlessNoise(t: seq<Byte>) {
    && |t| >= 2 && t[0] == LT
    && if t[1] == 0x3F then Nowhere(t, INSTRUCTION_END)
       else if StartsWith(t, COMMENT) then Nowhere(t[4..], COMMENT_END)
       else t[1] == 0x21 && NeverEnds(t[2..], 0)
  }

  predicate GoodTagFault(f: TagFault) {
    && AllNoise(f.noise)
    && match f
       case NoTag(_, t) => t == [] || (t[0] != LT && !IsSpace(t[0]))
       case NoName(_, slash, t) =>
         t == [] || (!IsNameByte(t[0]) && (!slash ==> t[0] != SLASH && t[0] != 0x3F && t[0] != 0x21))
       case NoEnd(_, slash, name, t) =>
         && name != [] && (forall i :: 0 <= i < |name| ==> IsNameByte(name[i]))
         && (t != [] ==> !IsNameByte(t[0])) && GT !in t
       case Endless(_, t) => EndlessNoise(t)
  }

  function Slash(slash: bool): seq<Byte> {
    if slash then [LT, SLASH] else [LT]
  }

  function RenderTagFault(f: TagFault): seq<Byte> {
    RenderNoises(f.noise) +
    match f
    case NoTag(_, t) => t
    case NoName(_, slash, t) => Slash(slash) + t
    case NoEnd(_, slash, name, t) => Slash(slash) + (name + t)
    case Endless(_, t) => t
  }

  /** The reader stops before it, behind the '<' or '</', behind the name, before the noise. */
  function TagFaultEnd(f: TagFault): seq<Byte> {
    f.t
  }

  lemma {:induction false} NotFound(t: seq<Byte>, end: seq<Byte>)
    requires end != []
    ensures AfterText(t, end) == None <==> Nowhere(t, end)
  {
    assert t[0..] == t;
    if t != [] && !StartsWith(t, end) {
      NotFound(t[1..], end);
      assert forall i :: 1 <= i <= |t| ==> t[i..] == t[1..][i - 1..];
      assert forall i :: 0 <= i <= |t| - 1 ==> t[1..][i..] == t[i + 1..];
    } else if t == [] {
      assert t[0..] == [];
    }
  }

  lemma {:induction false} NoDeclarationEnd(t: seq<Byte>, depth: int)
    ensures AfterDeclaration(t, depth) == None <==> NeverEnds(t, depth)
  {
    if t != [] && !(t[0] == GT && depth <= 0) {
      NoDeclarationEnd(t[1..], if t[0] == 0x5B then depth + 1 else if t[0] == 0x5D then depth - 1 else depth);
    }
  }

  lemma EndlessFails(t: seq<Byte>)
    requires EndlessNoise(t)
    ensures SkipNoise(t) == Failed(t)
  {
    assert SkipWs(t) == t;
    NotFound(t, INSTRUCTION_END);
    if StartsWith(t, COMMENT) {
      NotFound(t[4..], COMMENT_END);
    }
    NoDeclarationEnd(t[2..], 0);
    hide AfterText, AfterDeclaration, NeverEnds, Nowhere;
  }

  lemma NoTagFails(t: seq<Byte>)
    requires t == [] || (t[0] != LT && !IsSpace(t[0]))
    ensures SkipNoise(t) == Done((), t)
  {
    assert SkipWs(t) == t;
  }

  lemma {:induction false} AllName(name: seq<Byte>, t: seq<Byte>)
    requires (forall i :: 0 <= i < |name| ==> IsNameByte(name[i])) && (t != [] ==> !IsNameByte(t[0]))
    ensures NameLength(name + t) == |name|
  {
    if name == [] {
      assert name + t == t;
    } else {
      assert (name + t)[1..] == name[1..] + t;
      AllName(name[1..], t);
    }
  }

  lemma BodyFails(name: seq<Byte>, t: seq<Byte>, closing: bool)
    requires (forall i :: 0 <= i < |name| ==> IsNameByte(name[i])) && (t != [] ==> !IsNameByte(t[0]))
    requires name != [] ==> GT !in t
    ensures TagBody(name + t, closing) == Failed(t)
  {
    hide NameLength, Find;
    AllName(name, t);
    assert name + t == t || name != [];
    assert (name + t)[|name|..] == t;
    assert Find(t, GT) == |t| || name == [];
  }

  lemma TagAfterNoise(noise: seq<Noise>, s: seq<Byte>)
    requires AllNoise(noise)
    ensures ReadTag(RenderNoises(noise) + s) == ReadTag(s)
  {
    NoisesAreSkipped(noise, s);
    hide SkipNoise, TagBody;
  }

  lemma SlashedTag(slash: bool, t: seq<Byte>)
    requires slash || (t != [] && t[0] != SLASH && t[0] != 0x3F && t[0] != 0x21)
    ensures ReadTag(Slash(slash) + t) == TagBody(t, slash)
  {
    hide TagBody;
    if slash {
      var s := [LT, SLASH] + t;
      NoNoise(SLASH, t);
      assert s[2..] == t;
    } else {
      var s := [LT] + t;
      assert s == [LT, t[0]] + t[1..];
      NoNoise(t[0], t[1..]);
      assert s[1..] == t;
    }
  }

  lemma LoneBracket()
    ensures ReadTag([LT]) == Failed([])
  {
    assert SkipWs([LT]) == [LT];
    assert [LT][1..] == [];
  }

  lemma TagFaultFails(f: TagFault)
    requires GoodTagFault(f)
    ensures ReadTag(RenderTagFault(f)) == Failed(TagFaultEnd(f))
  {
    hide ReadTag, TagBody, RenderNoises, AllNoise, EndlessNoise;
    match f
    case NoTag(noise, t) =>
      TagAfterNoise(noise, t);
      NoTagReads(t);
    case NoName(noise, slash, t) =>
      TagAfterNoise(noise, Slash(slash) + t);
      if slash || t != [] {
        SlashedTag(slash, t);
        BodyFails([], t, slash);
        assert [] + t == t;
      } else {
        assert Slash(slash) + t == [LT];
        LoneBracket();
      }
    case NoEnd(noise, slash, name, t) =>
      TagAfterNoise(noise, Slash(slash) + (name + t));
      assert (name + t)[0] == name[0] && IsNameByte(name[0]);
      SlashedTag(slash, name + t);
      BodyFails(name, t, slash);
    case Endless(noise, t) =>
      TagAfterNoise(noise, t);
      EndlessReads(t);
  }

  lemma NoTagReads(t: seq<Byte>)
    requires t == [] || (t[0] != LT && !IsSpace(t[0]))
    ensures ReadTag(t) == Failed(t)
  {
    NoTagFails(t);
    hide SkipNoise;
  }

  lemma EndlessReads(t: seq<Byte>)
    requires EndlessNoise(t)
    ensures ReadTag(t) == Failed(t)
  {
    EndlessFails(t);
    hide SkipNoise;
  }

  // ---------------------------------------------------------- the wrong close

  /** Where </name> should stand: another tag, or none that can be read. */
  datatype CloseFault = OtherTag(m: Mark, closing: bool, rest: seq<Byte>) | NotATag(f: TagFault)

  predicate GoodCloseFault(f: CloseFault, name: seq<Byte>) {
    match f
    case OtherTag(m, closing, _) => GoodMark(m) && !(closing && LowerAll(m.name) == name)
    case NotATag(t) => GoodTagFault(t)
  }

  function RenderCloseFault(f: CloseFault): seq<Byte> {
    match f
    case OtherTag(m, closing, rest) => (if closing then RenderClose(m) else RenderOpen(m)) + rest
    case NotATag(t) => RenderTagFault(t)
  }

  /** Behind the other tag. */
  function CloseFaultEnd(f: CloseFault): seq<Byte> {
    match f
    case OtherTag(_, _, rest) => rest
    case NotATag(t) => TagFaultEnd(t)
  }

  lemma CloseFaultFails(f: CloseFault, name: seq<Byte>)
    requires GoodCloseFault(f, name)
    ensures ExpectClose(RenderCloseFault(f), name) == Failed(CloseFaultEnd(f))
  {
    hide ReadTag, GoodMark, GoodTagFault, RenderOpen, RenderClose, RenderTagFault;
    match f
    case OtherTag(m, closing, rest) =>
      if closing {
        CloseReads(m, rest);
      } else {
        OpenReads(m, rest);
      }
    case NotATag(t) => TagFaultFails(t);
  }

  /** Character data that ends where it should not, or in a reference that is none. */
  datatype TextFault = EndsAt(f: CloseFault) | BadRef(tail: seq<Byte>)

  /** No ';' at all, or no known reference before the first one. */
  predicate NoRef(tail: seq<Byte>) {
    SEMI !in tail || exists i :: 0 <= i < |tail| && tail[i] == SEMI && SEMI !in tail[..i] && !KnownRef(tail[..i])
  }

  predicate GoodTextFault(f: TextFault, name: seq<Byte>) {
    match f
    case EndsAt(c) =>
      GoodCloseFault(c, name) && (RenderCloseFault(c) == [] || RenderCloseFault(c)[0] == LT)
    case BadRef(tail) => NoRef(tail)
  }

  function RenderTextFault(f: TextFault): seq<Byte> {
    match f
    case EndsAt(c) => RenderCloseFault(c)
    case BadRef(tail) => [AMP] + tail
  }

  /** At the '&', for a bad reference. */
  function TextFaultEnd(f: TextFault): seq<Byte> {
    match f
    case EndsAt(c) => CloseFaultEnd(c)
    case BadRef(tail) => [AMP] + tail
  }

  lemma {:induction false} FirstIs(s: seq<Byte>, c: Byte, i: nat)
    requires i < |s| && s[i] == c && c !in s[..i]
    ensures Find(s, c) == i
  {
    if i > 0 {
      assert s[0] == s[..i][0];
      assert s[1..][..i - 1] == s[..i][1..];
      FirstIs(s[1..], c, i - 1);
    }
  }

  lemma AmpFails(s: seq<Byte>)
    requires s != [] && s[0] == AMP
    ensures Find(s, SEMI) == |s| || Entity(s[1..Find(s, SEMI)]) == None ==> ReadText(s) == Failed(s)
  {
    hide Entity, Find;
    assert Find(s, SEMI) < |s| ==> Find(s, SEMI) > 0;
  }

  lemma BadRefFails(tail: seq<Byte>)
    requires NoRef(tail)
    ensures ReadText([AMP] + tail) == Failed([AMP] + tail)
  {
    var s := [AMP] + tail;
    hide Entity, KnownRef, ReadText, Find;
    AmpFails(s);
    if SEMI !in tail {
      assert s[0] != SEMI && SEMI !in s;
    } else {
      var i :| 0 <= i < |tail| && tail[i] == SEMI && SEMI !in tail[..i] && !KnownRef(tail[..i]);
      assert s[..i + 1] == [AMP] + tail[..i];
      FirstIs(s, SEMI, i + 1);
      assert s[1..i + 1] == tail[..i];
      RefIs(tail[..i]);
    }
  }

  lemma {:induction false} TextUpTo(bits: seq<Bit>, s: seq<Byte>)
    requires GoodBits(bits) && ReadText(s).Failed?
    ensures ReadText(RenderBits(bits) + s) == ReadText(s)
  {
    if bits == [] {
      assert RenderBits(bits) + s == s;
    } else {
      hide RenderBit, BitMeans, ReadText, GoodBit;
      Associative(RenderBit(bits[0]), RenderBits(bits[1..]), s);
      BitReads(bits[0], RenderBits(bits[1..]) + s);
      TextUpTo(bits[1..], s);
    }
  }

  /** An element whose text ends in a fault is refused there. */
  lemma TextFaultFails(bits: seq<Bit>, f: TextFault, name: seq<Byte>)
    requires GoodBits(bits) && GoodTextFault(f, name)
    ensures Element(RenderBits(bits) + RenderTextFault(f), name) == Failed(TextFaultEnd(f))
  {
    hide ReadText, ExpectClose, RenderCloseFault, GoodCloseFault, NoRef;
    match f
    case EndsAt(c) =>
      BitsRead(bits, RenderCloseFault(c));
      CloseFaultFails(c, name);
    case BadRef(tail) =>
      BadRefFails(tail);
      TextUpTo(bits, [AMP] + tail);
  }

  // ------------------------------------------------------- faults in a value

  /** Inside a dictionary, where a key or the end should stand. */
  datatype ItemFault =
    | NoKeyTag(tag: TagFault)
    | NotAKey(m: Mark, closing: bool, rest: seq<Byte>)
    | BadKey(open: Mark, bits: seq<Bit>, end: TextFault)

  /** Where a value should stand. */
  datatype Fault =
    | NoValueTag(tag: TagFault)
    | Unexpected(m: Mark, rest: seq<Byte>)                        // a closing tag
    | Unsupported(open: Mark, rest: seq<Byte>)                    // an element of another name
    | BadText(open: Mark, kind: Leaf, bits: seq<Bit>, end: TextFault)
    | BadBool(open: Mark, b: bool, wrong: CloseFault)
    | BadData(open: Mark, bits: seq<Bit>, close: Mark, rest: seq<Byte>)
    | BadItem(open: Mark, items: seq<LooseItem>, item: ItemFault)

  predicate GoodItemFault(f: ItemFault) {
    match f
    case NoKeyTag(t) => GoodTagFault(t)
    case NotAKey(m, closing, _) => GoodMark(m) && LowerAll(m.name) != if closing then DICT else KEY
    case BadKey(open, bits, t) => Closes(open, KEY) && GoodBits(bits) && GoodTextFault(t, KEY)
  }

  predicate GoodFault(f: Fault) {
    match f
    case NoValueTag(t) => GoodTagFault(t)
    case Unexpected(m, _) => GoodMark(m)
    case Unsupported(open, _) =>
      GoodMark(open) && LowerAll(open.name) !in {TRUE, FALSE, DICT, ARRAY, STRING, INTEGER, REAL, DATA}
    case BadText(open, kind, bits, t) =>
      && Closes(open, LeafName(kind)) && (kind == AString || kind == SomeData ==> !SaysEmpty(open))
      && GoodBits(bits) && GoodTextFault(t, LeafName(kind))
    case BadBool(open, b, t) =>
      var name := if b then TRUE else FALSE;
      Closes(open, name) && !SaysEmpty(open) && GoodCloseFault(t, name)
    case BadData(open, bits, close, _) =>
      && Closes(open, DATA) && !SaysEmpty(open) && GoodBits(bits) && ClosesText(close, DATA)
      && !Base64Text(TextOf(bits))
    case BadItem(open, items, t) =>
      && Closes(open, DICT) && !SaysEmpty(open) && GoodItemFault(t)
      && forall i :: 0 <= i < |items| ==> GoodLooseItem(items[i])
  }

  function RenderItemFault(f: ItemFault): seq<Byte> {
    match f
    case NoKeyTag(t) => RenderTagFault(t)
    case NotAKey(m, closing, rest) => (if closing then RenderClose(m) else RenderOpen(m)) + rest
    case BadKey(open, bits, t) => RenderOpen(open) + (RenderBits(bits) + RenderTextFault(t))
  }

  function ItemFaultEnd(f: ItemFault): seq<Byte> {
    match f
    case NoKeyTag(t) => TagFaultEnd(t)
    case NotAKey(_, _, rest) => rest
    case BadKey(_, _, t) => TextFaultEnd(t)
  }

  function RenderFault(f: Fault): seq<Byte> {
    match f
    case NoValueTag(t) => RenderTagFault(t)
    case Unexpected(m, rest) => RenderClose(m) + rest
    case Unsupported(open, rest) => RenderOpen(open) + rest
    case BadText(open, _, bits, t) => RenderOpen(open) + (RenderBits(bits) + RenderTextFault(t))
    case BadBool(open, _, t) => RenderOpen(open) + RenderCloseFault(t)
    case BadData(open, bits, close, rest) => RenderOpen(open) + (RenderBits(bits) + RenderClose(close) + rest)
    case BadItem(open, items, t) => RenderOpen(open) + (LooseItems(items) + RenderItemFault(t))
  }

  /** Behind the tag that is wrong or the text that does not decode; at the '&' of a bad reference. */
  function FaultEnd(f: Fault): seq<Byte> {
    match f
    case NoValueTag(t) => TagFaultEnd(t)
    case Unexpected(_, rest) => rest
    case Unsupported(_, rest) => rest
    case BadText(_, _, _, t) => TextFaultEnd(t)
    case BadBool(_, _, t) => CloseFaultEnd(t)
    case BadData(_, _, _, rest) => rest
    case BadItem(_, _, t) => ItemFaultEnd(t)
  }

  lemma ReadsAfterOpen(open: Mark, s: seq<Byte>)
    requires GoodMark(open)
    ensures ParseValue(RenderOpen(open) + s) == ParseAfterTag(TagOf(open, false), s)
  {
    OpenReads(open, s);
    hide ReadTag, ParseAfterTag, RenderOpen, GoodMark;
  }

  lemma TagFailsValue(s: seq<Byte>, at: seq<Byte>)
    requires ReadTag(s) == Failed(at)
    ensures ParseValue(s) == Failed(at)
  {
    hide ReadTag, ParseAfterTag;
  }

  lemma UnexpectedFails(m: Mark, rest: seq<Byte>)
    requires GoodMark(m)
    ensures ParseValue(RenderClose(m) + rest) == Failed(rest)
  {
    CloseReads(m, rest);
    hide ReadTag, ParseAfterTag, RenderClose, GoodMark;
  }

  lemma UnsupportedFails(tag: Tag, s: seq<Byte>)
    requires tag.name !in {TRUE, FALSE, DICT, ARRAY, STRING, INTEGER, REAL, DATA}
    ensures ParseAfterTag(tag, s) == Failed(s)
  {
    hide Ascii, ParseDict, ParseArray, Element, ExpectClose;
  }

  lemma LeafFails(tag: Tag, kind: Leaf, s: seq<Byte>, at: seq<Byte>)
    requires tag.name == LeafName(kind) && !(tag.selfClosing && (kind == AString || kind == SomeData))
    requires Element(s, LeafName(kind)) == Failed(at)
    ensures ParseAfterTag(tag, s) == Failed(at)
  {
    NamesDiffer();
    hide Ascii, ParseDict, ParseArray, Element, ExpectClose;
  }

  lemma BoolFails(tag: Tag, b: bool, s: seq<Byte>, at: seq<Byte>)
    requires tag.name == (if b then TRUE else FALSE) && !tag.selfClosing && ExpectClose(s, tag.name) == Failed(at)
    ensures ParseAfterTag(tag, s) == Failed(at)
  {
    NamesDiffer();
    hide Ascii, ParseDict, ParseArray, Element, ExpectClose;
  }

  lemma DataFails(tag: Tag, s: seq<Byte>, text: seq<Byte>, rest: seq<Byte>)
    requires tag.name == DATA && !tag.selfClosing && Element(s, DATA) == Done(text, rest) && !Base64Text(text)
    ensures ParseAfterTag(tag, s) == Failed(rest)
  {
    NamesDiffer();
    DecodesBase64(text, 0, 0);
    hide Ascii, ParseDict, ParseArray, Element, ExpectClose, DecodeLoop, Base64Text;
  }

  lemma KeyTagFails(s: seq<Byte>, done: seq<Item>, tag: Tag, rest: seq<Byte>)
    requires ReadTag(s) == Done(tag, rest) && !(tag.closing && tag.name == DICT) && (tag.name != KEY || tag.closing)
    ensures ParseDict(s, done) == Failed(rest)
  {
    hide ReadTag, Element, ParseValue, Ascii;
  }

  lemma NoKeyFails(s: seq<Byte>, done: seq<Item>, at: seq<Byte>)
    requires ReadTag(s) == Failed(at)
    ensures ParseDict(s, done) == Failed(at)
  {
    hide ReadTag, Element, ParseValue, Ascii;
  }

  lemma KeyFails(s: seq<Byte>, done: seq<Item>, tag: Tag, s1: seq<Byte>, at: seq<Byte>)
    requires ReadTag(s) == Done(tag, s1) && tag.name == KEY && !tag.closing && Element(s1, KEY) == Failed(at)
    ensures ParseDict(s, done) == Failed(at)
  {
    NamesDiffer();
    hide ReadTag, Element, ParseValue, Ascii;
  }

  lemma ItemFaultFails(f: ItemFault, done: seq<Item>)
    requires GoodItemFault(f)
    ensures ParseDict(RenderItemFault(f), done) == Failed(ItemFaultEnd(f))
  {
    hide ReadTag, Element, ParseDict, GoodMark, RenderOpen, RenderClose, RenderBits, GoodBits, RenderTextFault,
      GoodTextFault, GoodTagFault, Ascii;
    NamesDiffer();
    match f
    case NoKeyTag(t) =>
      TagFaultFails(t);
      NoKeyFails(RenderTagFault(t), done, TagFaultEnd(t));
    case NotAKey(m, closing, rest) =>
      if closing {
        CloseReads(m, rest);
      } else {
        OpenReads(m, rest);
      }
      KeyTagFails(RenderItemFault(f), done, TagOf(m, closing), rest);
    case BadKey(open, bits, t) =>
      OpenReads(open, RenderBits(bits) + RenderTextFault(t));
      TextFaultFails(bits, t, KEY);
      KeyFails(RenderItemFault(f), done, TagOf(open, false), RenderBits(bits) + RenderTextFault(t), TextFaultEnd(t));
  }

  /** Items that are read, and then a place where the dictionary fails. */
  lemma {:induction false} ItemsThenFails(items: seq<LooseItem>, s: seq<Byte>, done: seq<Item>, at: seq<Byte>)
    requires forall i :: 0 <= i < |items| ==> GoodLooseItem(items[i])
    requires forall d :: ParseDict(s, d) == Failed(at)
    ensures ParseDict(LooseItems(items) + s, done) == Failed(at)
    decreases |items|
  {
    hide ParseDict, ParseValue, ReadTag, Element, GoodLoose, GoodMark, GoodBits, GoodAfterText, RenderLoose, RenderBits,
      RenderClose, RenderOpen, Tree, TextOf;
    if items == [] {
      assert LooseItems(items) + s == s;
    } else {
      var x := items[0];
      assert GoodLooseItem(x);
      var after := LooseItems(items[1..]) + s;
      var value := RenderLoose(x.value) + after;
      ItemThenRest(x, LooseItems(items[1..]), s);
      var s1 := RenderBits(x.bits) + RenderClose(x.close) + value;
      LooseOpens(x.open, KEY, s1);
      TextElementReads(x.bits, x.close, KEY, value);
      LooseRoundTrip(x.value, after);
      LooseDictStep(RenderOpen(x.open) + s1, done, Tag(KEY, false, SaysEmpty(x.open)), s1, TextOf(x.bits), value,
                    Tree(x.value), after);
      ItemsThenFails(items[1..], s, done + [Item(TextOf(x.bits), Tree(x.value))], at);
    }
  }

  lemma ItemThenRest(x: LooseItem, more: seq<Byte>, s: seq<Byte>)
    ensures (LooseKey(x) + (RenderLoose(x.value) + more)) + s
      == RenderOpen(x.open) + (RenderBits(x.bits) + RenderClose(x.close) + (RenderLoose(x.value) + (more + s)))
  {
    hide RenderOpen, RenderClose, RenderBits, RenderLoose;
    var text, value := RenderBits(x.bits) + RenderClose(x.close), RenderLoose(x.value);
    Associative(value, more, s);
    Associative(LooseKey(x), value + more, s);
    Associative(RenderOpen(x.open), text, value + (more + s));
  }

  lemma BadItemFails(open: Mark, items: seq<LooseItem>, s: seq<Byte>, at: seq<Byte>)
    requires Closes(open, DICT) && !SaysEmpty(open) && forall i :: 0 <= i < |items| ==> GoodLooseItem(items[i])
    requires forall d :: ParseDict(s, d) == Failed(at)
    ensures ParseValue(RenderOpen(open) + (LooseItems(items) + s)) == Failed(at)
  {
    hide ParseDict, ParseValue, ParseAfterTag, GoodMark, GoodLooseItem, RenderOpen, LooseItems, Ascii;
    ReadsAfterOpen(open, LooseItems(items) + s);
    DictIs(TagOf(open, false), LooseItems(items) + s);
    ItemsThenFails(items, s, [], at);
  }

  /** Each fault is refused at its place. */
  lemma FaultFails(f: Fault)
    requires GoodFault(f)
    ensures ParseValue(RenderFault(f)) == Failed(FaultEnd(f))
  {
    hide ParseValue, ParseAfterTag, Element, ExpectClose, GoodMark, RenderOpen, RenderClose, RenderBits, GoodBits,
      RenderTextFault, GoodTextFault, RenderCloseFault, GoodCloseFault, GoodItemFault, RenderItemFault, ItemFaultEnd,
      GoodTagFault, GoodLooseItem, LooseItems, TextOf, Base64Text, Ascii;
    match f
    case NoValueTag(t) =>
      TagFaultFails(t);
      TagFailsValue(RenderTagFault(t), TagFaultEnd(t));
    case Unexpected(m, rest) => UnexpectedFails(m, rest);
    case Unsupported(open, rest) =>
      ReadsAfterOpen(open, rest);
      UnsupportedFails(TagOf(open, false), rest);
    case BadText(open, kind, bits, t) =>
      ReadsAfterOpen(open, RenderBits(bits) + RenderTextFault(t));
      TextFaultFails(bits, t, LeafName(kind));
      LeafFails(TagOf(open, false), kind, RenderBits(bits) + RenderTextFault(t), TextFaultEnd(t));
    case BadBool(open, b, t) =>
      ReadsAfterOpen(open, RenderCloseFault(t));
      CloseFaultFails(t, if b then TRUE else FALSE);
      BoolFails(TagOf(open, false), b, RenderCloseFault(t), CloseFaultEnd(t));
    case BadData(open, bits, close, rest) =>
      var s := RenderBits(bits) + RenderClose(close) + rest;
      ReadsAfterOpen(open, s);
      TextElementReads(bits, close, DATA, rest);
      DataFails(TagOf(open, false), s, TextOf(bits), rest);
    case BadItem(open, items, t) =>
      forall d
        ensures ParseDict(RenderItemFault(t), d) == Failed(ItemFaultEnd(t))
      {
        ItemFaultFails(t, d);
      }
      BadItemFails(open, items, RenderItemFault(t), ItemFaultEnd(t));
  }

  // ---------------------------------------------------------- at any depth

  /** An array or a dictionary that has begun, up to where its next value begins. */
  datatype Frame =
    | InArray(open: Mark, elems: seq<Loose>)
    | InDict(open: Mark, items: seq<LooseItem>, keyOpen: Mark, bits: seq<Bit>, keyClose: Mark)

  predicate GoodFrame(f: Frame) {
    match f
    case InArray(open, elems) =>
      Closes(open, ARRAY) && !SaysEmpty(open) && forall i :: 0 <= i < |elems| ==> GoodLoose(elems[i])
    case InDict(open, items, keyOpen, bits, keyClose) =>
      && Closes(open, DICT) && !SaysEmpty(open) && (forall i :: 0 <= i < |items| ==> GoodLooseItem(items[i]))
      && GoodText(keyOpen, KEY, bits, keyClose)
  }

  function FrameInside(f: Frame): seq<Byte> {
    match f
    case InArray(_, elems) => LooseElems(elems)
    case InDict(_, items, keyOpen, bits, keyClose) =>
      LooseItems(items) + (RenderOpen(keyOpen) + (RenderBits(bits) + RenderClose(keyClose)))
  }

  function RenderFrames(frames: seq<Frame>, s: seq<Byte>): seq<Byte> {
    if frames == [] then s
    else RenderOpen(frames[0].open) + (FrameInside(frames[0]) + RenderFrames(frames[1..], s))
  }

  /** In an array, its own closing tag is no fault. */
  predicate EndsArray(s: seq<Byte>) {
    ReadTag(s).Done? && ReadTag(s).value.closing && ReadTag(s).value.name == ARRAY
  }

  lemma ArrayFailsHere(s: seq<Byte>, done: seq<Value>, at: seq<Byte>)
    requires ParseValue(s) == Failed(at) && !EndsArray(s)
    ensures ParseArray(s, done) == Failed(at)
  {
    if ReadTag(s).Done? {
      ArrayTurn(s, done);
      hide ReadTag, ParseArray, ParseValue;
    } else {
      NoElementTag(s, done, at);
    }
  }

  lemma NoElementTag(s: seq<Byte>, done: seq<Value>, at: seq<Byte>)
    requires ReadTag(s).Failed? && ParseValue(s) == Failed(at)
    ensures ParseArray(s, done) == Failed(at)
  {
    assert ReadTag(s) == Failed(at);
    if SkipNoise(s).Done? {
      var save := SkipNoise(s).rest;
      assert SkipWs(save) == save;
      assert ReadTag(save) == ReadTag(s);
    }
    hide ReadTag, SkipNoise, ParseValue;
  }

  lemma {:induction false} ElemsThenFails(elems: seq<Loose>, s: seq<Byte>, done: seq<Value>, at: seq<Byte>)
    requires forall i :: 0 <= i < |elems| ==> GoodLoose(elems[i])
    requires ParseValue(s) == Failed(at) && !EndsArray(s)
    ensures ParseArray(LooseElems(elems) + s, done) == Failed(at)
    decreases |elems|
  {
    hide ParseArray, ParseValue, EndsArray, GoodLoose, RenderLoose, Tree;
    if elems == [] {
      assert LooseElems(elems) + s == s;
      ArrayFailsHere(s, done, at);
    } else {
      var after := LooseElems(elems[1..]) + s;
      Associative(RenderLoose(elems[0]), LooseElems(elems[1..]), s);
      LooseRoundTrip(elems[0], after);
      ArrayStep(RenderLoose(elems[0]) + after, done, Tree(elems[0]), after);
      ElemsThenFails(elems[1..], s, done + [Tree(elems[0])], at);
    }
  }

  lemma KeyThenFails(keyOpen: Mark, bits: seq<Bit>, keyClose: Mark, s: seq<Byte>, done: seq<Item>, at: seq<Byte>)
    requires GoodText(keyOpen, KEY, bits, keyClose) && ParseValue(s) == Failed(at)
    ensures ParseDict(RenderOpen(keyOpen) + (RenderBits(bits) + RenderClose(keyClose) + s), done) == Failed(at)
  {
    hide ParseDict, ParseValue, ReadTag, Element, GoodMark, GoodBits, GoodAfterText, RenderBits, RenderClose,
      RenderOpen, TextOf, Ascii;
    var s1 := RenderBits(bits) + RenderClose(keyClose) + s;
    LooseOpens(keyOpen, KEY, s1);
    TextElementReads(bits, keyClose, KEY, s);
    ValueFailsItem(RenderOpen(keyOpen) + s1, done, TagOf(keyOpen, false), s1, TextOf(bits), s, at);
  }

  lemma ValueFailsItem(s: seq<Byte>, done: seq<Item>, tag: Tag, s1: seq<Byte>, key: seq<Byte>, s2: seq<Byte>,
                       at: seq<Byte>)
    requires ReadTag(s) == Done(tag, s1) && tag.name == KEY && !tag.closing
    requires Element(s1, KEY) == Done(key, s2) && ParseValue(s2) == Failed(at)
    ensures ParseDict(s, done) == Failed(at)
  {
    NamesDiffer();
    hide ReadTag, Element, ParseValue, Ascii;
  }

  /** A value that fails makes the array or dictionary around it fail, at the same place. */
  lemma FrameFails(f: Frame, s: seq<Byte>, at: seq<Byte>)
    requires GoodFrame(f) && ParseValue(s) == Failed(at) && (f.InArray? ==> !EndsArray(s))
    ensures ParseValue(RenderOpen(f.open) + (FrameInside(f) + s)) == Failed(at)
  {
    hide ParseDict, ParseArray, ParseValue, ParseAfterTag, GoodMark, GoodLoose, GoodLooseItem, GoodBits, GoodAfterText,
      EndsArray, RenderOpen, RenderClose, RenderBits, LooseItems, LooseElems, Ascii;
    match f
    case InArray(open, elems) =>
      ReadsAfterOpen(open, LooseElems(elems) + s);
      ArrayIs(TagOf(open, false), LooseElems(elems) + s);
      ElemsThenFails(elems, s, [], at);
    case InDict(open, items, keyOpen, bits, keyClose) =>
      var text := RenderBits(bits) + RenderClose(keyClose);
      Associative(RenderOpen(keyOpen), text, s);
      Associative(LooseItems(items), RenderOpen(keyOpen) + text, s);
      forall d
        ensures ParseDict(RenderOpen(keyOpen) + (text + s), d) == Failed(at)
      {
        KeyThenFails(keyOpen, bits, keyClose, s, d, at);
      }
      BadItemFails(open, items, RenderOpen(keyOpen) + (text + s), at);
  }

  lemma OpensNoArrayEnd(open: Mark, s: seq<Byte>)
    requires GoodMark(open)
    ensures !EndsArray(RenderOpen(open) + s)
  {
    OpenReads(open, s);
    hide ReadTag, RenderOpen, GoodMark;
  }

  lemma {:induction false} FramesFail(frames: seq<Frame>, s: seq<Byte>, at: seq<Byte>)
    requires forall i :: 0 <= i < |frames| ==> GoodFrame(frames[i])
    requires ParseValue(s) == Failed(at) && (frames != [] && frames[|frames| - 1].InArray? ==> !EndsArray(s))
    ensures ParseValue(RenderFrames(frames, s)) == Failed(at)
    decreases |frames|
  {
    hide ParseValue, EndsArray, GoodMark, GoodLoose, GoodLooseItem, RenderOpen, FrameInside, Closes;
    if frames != [] {
      assert GoodFrame(frames[0]);
      var rest := frames[1..];
      assert forall i :: 0 <= i < |rest| ==> rest[i] == frames[i + 1];
      FramesFail(rest, s, at);
      if rest != [] {
        assert GoodFrame(rest[0]);
        FrameOpens(rest[0]);
        OpensNoArrayEnd(rest[0].open, FrameInside(rest[0]) + RenderFrames(rest[1..], s));
      }
      FrameFails(frames[0], RenderFrames(rest, s), at);
    }
  }

  lemma FrameOpens(f: Frame)
    requires GoodFrame(f)
    ensures GoodMark(f.open) && LowerAll(f.open.name) != PLIST
  {
    NamesDiffer();
    hide GoodMark, Ascii;
  }

  // --------------------------------------------------------------- documents

  /** A document up to a fault: in a <plist> wrapper or not, inside any arrays and dictionaries. */
  datatype Broken =
    | BrokenValue(wrapper: Option<Mark>, frames: seq<Frame>, f: Fault)
    | BrokenEnd(open: Mark, x: Loose, wrong: CloseFault)           // where </plist> should stand

  predicate GoodBroken(b: Broken) {
    match b
    case BrokenValue(wrapper, frames, f) =>
      && (wrapper.Some? ==> Closes(wrapper.value, PLIST))
      && (forall i :: 0 <= i < |frames| ==> GoodFrame(frames[i])) && GoodFault(f)
      && (f.Unexpected? ==> wrapper.Some? || frames != [])
      && (f.Unexpected? && frames != [] && frames[|frames| - 1].InArray? ==> LowerAll(f.m.name) != ARRAY)
      && (f.Unsupported? && wrapper == None && frames == [] ==> LowerAll(f.open.name) != PLIST)
    case BrokenEnd(open, x, f) => Closes(open, PLIST) && GoodLoose(x) && GoodCloseFault(f, PLIST)
  }

  function RenderBroken(b: Broken): seq<Byte> {
    match b
    case BrokenValue(None, frames, f) => RenderFrames(frames, RenderFault(f))
    case BrokenValue(Some(open), frames, f) => RenderOpen(open) + RenderFrames(frames, RenderFault(f))
    case BrokenEnd(open, x, f) => RenderOpen(open) + (RenderLoose(x) + RenderCloseFault(f))
  }

  function BrokenAt(b: Broken): seq<Byte> {
    match b
    case BrokenValue(_, _, f) => FaultEnd(f)
    case BrokenEnd(_, _, f) => CloseFaultEnd(f)
  }

  lemma WrapperFails(open: Mark, s: seq<Byte>, at: seq<Byte>)
    requires Closes(open, PLIST) && ParseValue(s) == Failed(at)
    ensures ParseString(RenderOpen(open) + s) == Failed(at)
  {
    LooseOpens(open, PLIST, s);
    hide ReadTag, ParseValue, ParseAfterTag, ExpectClose, GoodMark, RenderOpen;
  }

  lemma WrapperEndFails(open: Mark, s: seq<Byte>, v: Value, s2: seq<Byte>, at: seq<Byte>)
    requires Closes(open, PLIST) && ParseValue(s) == Done(v, s2) && ExpectClose(s2, PLIST) == Failed(at)
    ensures ParseString(RenderOpen(open) + s) == Failed(at)
  {
    LooseOpens(open, PLIST, s);
    hide ReadTag, ParseValue, ParseAfterTag, ExpectClose, GoodMark, RenderOpen;
  }

  /** A root that is no wrapper and no closing tag is read as a value. */
  lemma RootFails(s: seq<Byte>, at: seq<Byte>)
    requires ParseValue(s) == Failed(at)
    requires ReadTag(s).Done? ==> !ReadTag(s).value.closing && ReadTag(s).value.name != PLIST
    ensures ParseString(s) == Failed(at)
  {
    hide ReadTag, ParseAfterTag, ExpectClose;
  }

  /** What the first tag of a fault is, if it has one. */
  lemma FaultOpens(f: Fault)
    requires GoodFault(f)
    ensures var r := ReadTag(RenderFault(f));
      if f.NoValueTag? then r.Failed?
      else r.Done? && r.value == if f.Unexpected? then TagOf(f.m, true) else TagOf(f.open, false)
  {
    hide ReadTag, GoodMark, RenderOpen, RenderClose, RenderBits, GoodBits, RenderTextFault, GoodTextFault,
      RenderCloseFault, GoodCloseFault, GoodItemFault, RenderItemFault, GoodTagFault, RenderTagFault, LooseItems,
      GoodLooseItem, TextOf, Base64Text, Ascii;
    match f
    case NoValueTag(t) => TagFaultFails(t);
    case Unexpected(m, rest) => CloseReads(m, rest);
    case Unsupported(open, rest) => OpenReads(open, rest);
    case BadText(open, _, bits, t) => OpenReads(open, RenderBits(bits) + RenderTextFault(t));
    case BadBool(open, _, t) => OpenReads(open, RenderCloseFault(t));
    case BadData(open, bits, close, rest) => OpenReads(open, RenderBits(bits) + RenderClose(close) + rest);
    case BadItem(open, items, t) => OpenReads(open, LooseItems(items) + RenderItemFault(t));
  }

  lemma FaultName(f: Fault)
    requires GoodFault(f) && !f.NoValueTag? && !f.Unexpected? && !f.Unsupported?
    ensures LowerAll(f.open.name) != PLIST
  {
    NamesDiffer();
    hide GoodMark, GoodBits, GoodTextFault, GoodCloseFault, GoodItemFault, GoodLooseItem, Base64Text, Ascii;
  }

  lemma FaultIsNoEnd(f: Fault)
    requires GoodFault(f) && (f.Unexpected? ==> LowerAll(f.m.name) != ARRAY)
    ensures !EndsArray(RenderFault(f))
  {
    hide ReadTag, GoodFault, RenderFault, LowerAll, Ascii;
    FaultOpens(f);
  }

  lemma BareRoot(frames: seq<Frame>, f: Fault)
    requires GoodBroken(BrokenValue(None, frames, f))
    ensures var r := ReadTag(RenderFrames(frames, RenderFault(f)));
      r.Done? ==> !r.value.closing && r.value.name != PLIST
  {
    hide ReadTag, GoodFault, RenderFault, RenderOpen, FrameInside, GoodMark, LowerAll;
    if frames == [] {
      FaultOpens(f);
      if !f.NoValueTag? && !f.Unsupported? {
        FaultName(f);
      }
    } else {
      assert GoodFrame(frames[0]);
      FrameOpens(frames[0]);
      OpenReads(frames[0].open, FrameInside(frames[0]) + RenderFrames(frames[1..], RenderFault(f)));
    }
  }

  lemma BrokenValueFails(wrapper: Option<Mark>, frames: seq<Frame>, f: Fault)
    requires GoodBroken(BrokenValue(wrapper, frames, f))
    ensures ParseString(RenderBroken(BrokenValue(wrapper, frames, f))) == Failed(FaultEnd(f))
  {
    if frames != [] && frames[|frames| - 1].InArray? {
      FaultIsNoEnd(f);
    }
    if wrapper == None {
      BareRoot(frames, f);
    }
    hide ParseString, ParseValue, ReadTag, GoodFault, RenderFault, GoodFrame, RenderFrames, RenderOpen, EndsArray,
      Closes, FaultEnd;
    FaultFails(f);
    FramesFail(frames, RenderFault(f), FaultEnd(f));
    if wrapper.Some? {
      WrapperFails(wrapper.value, RenderFrames(frames, RenderFault(f)), FaultEnd(f));
    } else {
      RootFails(RenderFrames(frames, RenderFault(f)), FaultEnd(f));
    }
  }

  /**
   * A document with a fault is refused, with or without the wrapper and at any
   * depth of arrays and dictionaries, and the place of the failure is that of the
   * fault: behind the tag that is not the one that should stand there, behind
   * data that does not decode, at the '&' of a reference that is none, behind the
   * beginning of a tag that is none, or before noise without an end.
   */
  lemma BrokenIsRefused(b: Broken)
    requires GoodBroken(b)
    ensures ParseString(RenderBroken(b)) == Failed(BrokenAt(b))
  {
    match b
    case BrokenValue(wrapper, frames, f) => BrokenValueFails(wrapper, frames, f);
    case BrokenEnd(open, x, f) =>
      hide ParseString, ParseValue, ExpectClose, GoodLoose, RenderLoose, GoodCloseFault, RenderCloseFault, RenderOpen,
        Closes, Tree;
      LooseRoundTrip(x, RenderCloseFault(f));
      CloseFaultFails(f, PLIST);
      WrapperEndFails(open, RenderLoose(x) + RenderCloseFault(f), Tree(x), RenderCloseFault(f), CloseFaultEnd(f));
  }

  /** In particular an element closed under another name, and right behind that closing tag. */
  lemma MisclosedIsRefused(wrapper: Option<Mark>, frames: seq<Frame>, open: Mark, kind: Leaf, bits: seq<Bit>,
                           close: Mark, rest: seq<Byte>)
    requires wrapper.Some? ==> Closes(wrapper.value, PLIST)
    requires forall i :: 0 <= i < |frames| ==> GoodFrame(frames[i])
    requires Closes(open, LeafName(kind)) && (kind == AString || kind == SomeData ==> !SaysEmpty(open))
    requires GoodBits(bits) && GoodAfterText(close) && LowerAll(close.name) != LeafName(kind)
    ensures var element := RenderOpen(open) + (RenderBits(bits) + (RenderClose(close) + rest));
      ParseString((if wrapper.Some? then RenderOpen(wrapper.value) else []) + RenderFrames(frames, element))
        == Failed(rest)
  {
    var c := OtherTag(close, true, rest);
    var f := BadText(open, kind, bits, EndsAt(c));
    CloseStartsTag(close, rest);
    var b := BrokenValue(wrapper, frames, f);
    hide GoodMark, GoodBits, GoodFrame, RenderOpen, RenderClose, RenderBits, RenderFrames, LowerAll, ParseString,
      LeafName;
    assert GoodBroken(b);
    BrokenIsRefused(b);
    assert [] + RenderFrames(frames, RenderFault(f)) == RenderFrames(frames, RenderFault(f));
  }
}
