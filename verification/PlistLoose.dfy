/**
 * Property lists with everything the reader lets pass: any bytes as text, any
 * number for a reference, an element that says it is empty and is not, a root
 * element opened by a closing tag. Whatever has this form is read as its tree.
 */
module PlistLoose {
  import opened Common
  import opened PlistBase64
  import opened PlistText
  import opened PlistSpelling
  import opened PlistGrammar
  import opened PlistMarkup
  import opened PlistRoundTrip

  // -------------------------------------------------------------------- text

  /** A byte of text, or a reference: what stands between '&' and ';'. */
  datatype Bit = Plain(c: Byte) | Ref(e: seq<Byte>)

  /** lt, gt, amp, quot, apos, or a number sign and 1 to 15 bytes of anything. */
  predicate KnownRef(e: seq<Byte>) {
    || e == [0x6C, 0x74] || e == [0x67, 0x74] || e == [0x61, 0x6D, 0x70]
    || e == [0x71, 0x75, 0x6F, 0x74] || e == [0x61, 0x70, 0x6F, 0x73]
    || (2 <= |e| <= 16 && e[0] == 0x23)
  }

  /** The character it is for; a number that is none counts as C's strtoul reads it. */
  function RefMeans(e: seq<Byte>): seq<Byte> {
    if e == [0x6C, 0x74] then [0x3C]
    else if e == [0x67, 0x74] then [0x3E]
    else if e == [0x61, 0x6D, 0x70] then [0x26]
    else if e == [0x71, 0x75, 0x6F, 0x74] then [0x22]
    else if e == [0x61, 0x70, 0x6F, 0x73] then [0x27]
    else if |e| >= 2 && e[1] in {0x78, 0x58} then Utf8(Strtoul(e[2..], 16))
    else if |e| >= 1 then Utf8(Strtoul(e[1..], 10))
    else []
  }

  predicate GoodBit(b: Bit) {
    match b
    case Plain(c) => c != LT && c != AMP
    case Ref(e) => SEMI !in e && KnownRef(e)
  }

  predicate GoodBits(bits: seq<Bit>) {
    forall b :: b in bits ==> GoodBit(b)
  }

  function RenderBit(b: Bit): seq<Byte> {
    match b
    case Plain(c) => [c]
    case Ref(e) => [AMP] + e + [SEMI]
  }

  function BitMeans(b: Bit): seq<Byte> {
    match b
    case Plain(c) => [c]
    case Ref(e) => RefMeans(e)
  }

  function RenderBits(bits: seq<Bit>): seq<Byte> {
    if bits == [] then [] else RenderBit(bits[0]) + RenderBits(bits[1..])
  }

  function BitsMean(bits: seq<Bit>): seq<Byte> {
    if bits == [] then [] else BitMeans(bits[0]) + BitsMean(bits[1..])
  }

  /** A reference is resolved exactly if it is a known one, to the character it is for. */
  lemma RefIs(e: seq<Byte>)
    ensures Entity(e) == if KnownRef(e) then Some(RefMeans(e)) else None
  {
    hide Utf8, Strtoul;
    assert NAMES[0] == ([0x6C, 0x74], LT) && NAMES[1] == ([0x67, 0x74], GT) && NAMES[2] == ([0x61, 0x6D, 0x70], AMP);
    assert NAMES[3] == ([0x71, 0x75, 0x6F, 0x74], QUOT) && NAMES[4] == ([0x61, 0x70, 0x6F, 0x73], APOS);
  }

  lemma RefStands(e: seq<Byte>, rest: seq<Byte>)
    requires SEMI !in e
    ensures var s := [AMP] + e + [SEMI] + rest;
      && |s| > 1 + |e| && s[0] == AMP && Find(s, SEMI) == 1 + |e| && s[1..1 + |e|] == e && s[|e| + 2..] == rest
  {
    var s := [AMP] + e + [SEMI] + rest;
    assert s == ([AMP] + e) + [SEMI] + rest;
    FindAt([AMP] + e, SEMI, rest);
    assert s[1..1 + |e|] == e && s[|e| + 2..] == rest;
  }

  lemma PlainReads(c: Byte, rest: seq<Byte>)
    requires c != LT && c != AMP
    ensures ReadText([c] + rest) == Push([c], ReadText(rest))
  {
    assert ([c] + rest)[1..] == rest;
    hide Push;
  }

  lemma BitReads(b: Bit, rest: seq<Byte>)
    requires GoodBit(b)
    ensures ReadText(RenderBit(b) + rest) == Push(BitMeans(b), ReadText(rest))
  {
    hide Entity, RefMeans, KnownRef, ReadText, Find, Push;
    match b
    case Plain(c) => PlainReads(c, rest);
    case Ref(e) =>
      RefIs(e);
      RefStands(e, rest);
      ReadReference(RenderBit(b) + rest, 1 + |e|, RefMeans(e));
  }

  lemma {:induction false} BitsRead(bits: seq<Bit>, rest: seq<Byte>)
    requires GoodBits(bits) && (rest == [] || rest[0] == LT)
    ensures ReadText(RenderBits(bits) + rest) == Done(BitsMean(bits), rest)
  {
    if bits == [] {
      assert RenderBits(bits) + rest == rest;
    } else {
      hide RenderBit, BitMeans, ReadText, GoodBit;
      Associative(RenderBit(bits[0]), RenderBits(bits[1..]), rest);
      BitReads(bits[0], RenderBits(bits[1..]) + rest);
      BitsRead(bits[1..], rest);
    }
  }

  /** Base64 text: up to the first '=', or the end, nothing but white space and letters of the alphabet. */
  predicate Base64Text(t: seq<Byte>) {
    || t == [] || t[0] == 0x3D
    || ((t[0] == 0x20 || 9 <= t[0] <= 13 || 65 <= t[0] <= 90 || 97 <= t[0] <= 122 || 48 <= t[0] <= 57
         || t[0] == 0x2B || t[0] == 0x2F)
        && Base64Text(t[1..]))
  }

  lemma {:induction false} DecodesBase64(t: seq<Byte>, acc: nat, bits: nat)
    requires bits in {0, 2, 4, 6}
    ensures DecodeLoop(t, acc, bits).Some? <==> Base64Text(t)
  {
    if t != [] && t[0] != PAD {
      if IsSpace(t[0]) {
        DecodesBase64(t[1..], acc, bits);
      } else if Position(t[0]).Some? {
        var acc' := (acc * 64 + Position(t[0]).value) % TWO_32;
        DecodesBase64(t[1..], acc', if bits < 2 then bits + 6 else bits - 2);
      }
    }
  }

  // ------------------------------------------------------------------- forms

  datatype Leaf = AString | AnInteger | AReal | SomeData

  datatype Loose =
    | LBool(open: Mark, b: bool, end: Option<Mark>)
    | LLeaf(open: Mark, kind: Leaf, bits: seq<Bit>, close: Mark)
    | LEmpty(open: Mark, nothing: Empty)
    | LDict(open: Mark, items: seq<LooseItem>, close: Mark)
    | LArray(open: Mark, elems: seq<Loose>, close: Mark)

  datatype LooseItem = LooseItem(open: Mark, bits: seq<Bit>, close: Mark, value: Loose)

  function LeafName(k: Leaf): seq<Byte> {
    match k
    case AString => STRING
    case AnInteger => INTEGER
    case AReal => REAL
    case SomeData => DATA
  }

  /** The tag says that its element is empty. */
  predicate SaysEmpty(m: Mark) {
    m.attrs != [] && m.attrs[|m.attrs| - 1] == SLASH
  }

  /** Both halves of a text element; <integer/>, <real/> and <key/> do not count as empty. */
  predicate GoodText(open: Mark, name: seq<Byte>, bits: seq<Bit>, close: Mark) {
    Closes(open, name) && GoodBits(bits) && ClosesText(close, name)
  }

  predicate GoodLoose(x: Loose) {
    match x
    case LBool(open, b, end) =>
      var name := if b then TRUE else FALSE;
      Closes(open, name) && (SaysEmpty(open) <==> end == None) && (end.Some? ==> Closes(end.value, name))
    case LLeaf(open, kind, bits, close) =>
      && GoodText(open, LeafName(kind), bits, close)
      && (kind == AString || kind == SomeData ==> !SaysEmpty(open))
      && (kind == SomeData ==> Base64Text(CString(BitsMean(bits))))
    case LEmpty(open, nothing) => Closes(open, EmptyName(nothing)) && SaysEmpty(open)
    case LDict(open, items, close) =>
      && Closes(open, DICT) && !SaysEmpty(open) && Closes(close, DICT)
      && forall i :: 0 <= i < |items| ==> GoodLooseItem(items[i])
    case LArray(open, elems, close) =>
      && Closes(open, ARRAY) && !SaysEmpty(open) && Closes(close, ARRAY)
      && forall i :: 0 <= i < |elems| ==> GoodLoose(elems[i])
  }

  predicate GoodLooseItem(x: LooseItem) {
    GoodText(x.open, KEY, x.bits, x.close) && GoodLoose(x.value)
  }

  /** What follows the first tag. */
  function Inside(x: Loose): seq<Byte>
    decreases x, 0
  {
    match x
    case LBool(_, _, None) => []
    case LBool(_, _, Some(close)) => RenderClose(close)
    case LLeaf(_, _, bits, close) => RenderBits(bits) + RenderClose(close)
    case LEmpty(_, _) => []
    case LDict(_, items, close) => LooseItems(items) + RenderClose(close)
    case LArray(_, elems, close) => LooseElems(elems) + RenderClose(close)
  }

  function RenderLoose(x: Loose): seq<Byte>
    decreases x, 1
  {
    RenderOpen(x.open) + Inside(x)
  }

  function LooseKey(x: LooseItem): seq<Byte> {
    RenderOpen(x.open) + (RenderBits(x.bits) + RenderClose(x.close))
  }

  function LooseItems(items: seq<LooseItem>): seq<Byte>
    decreases items, 0
  {
    if items == [] then []
    else LooseKey(items[0]) + (RenderLoose(items[0].value) + LooseItems(items[1..]))
  }

  function LooseElems(elems: seq<Loose>): seq<Byte>
    decreases elems, 0
  {
    if elems == [] then [] else RenderLoose(elems[0]) + LooseElems(elems[1..])
  }

  /** Text is a C string: it ends at its first NUL. */
  function TextOf(bits: seq<Bit>): seq<Byte> {
    CString(BitsMean(bits))
  }

  function LeafMeans(kind: Leaf, text: seq<Byte>): Value
    requires kind == SomeData ==> Base64Text(text)
  {
    match kind
    case AString => Str(text)
    case AnInteger => Integer(Strtoll(text))
    case AReal => Real(text)
    case SomeData =>
      DecodesBase64(text, 0, 0);
      Data(DecodeLoop(text, 0, 0).value)
  }

  function Tree(x: Loose): Value
    requires GoodLoose(x)
  {
    match x
    case LBool(_, b, _) => Boolean(b)
    case LLeaf(_, kind, bits, _) => LeafMeans(kind, TextOf(bits))
    case LEmpty(_, NoText) => Str([])
    case LEmpty(_, NoBytes) => Data([])
    case LEmpty(_, NoItems) => Dict([])
    case LEmpty(_, NoElems) => Array([])
    case LDict(_, items, _) => Dict(ItemTrees(items))
    case LArray(_, elems, _) => Array(ElemTrees(elems))
  }

  function ItemTrees(items: seq<LooseItem>): seq<Item>
    requires forall i :: 0 <= i < |items| ==> GoodLooseItem(items[i])
  {
    if items == [] then []
    else
      assert GoodLooseItem(items[0]);
      [Item(TextOf(items[0].bits), Tree(items[0].value))] + ItemTrees(items[1..])
  }

  function ElemTrees(elems: seq<Loose>): seq<Value>
    requires forall i :: 0 <= i < |elems| ==> GoodLoose(elems[i])
  {
    if elems == [] then [] else [Tree(elems[0])] + ElemTrees(elems[1..])
  }

  // ------------------------------------------------------ what has them is read

  lemma TextElementReads(bits: seq<Bit>, close: Mark, name: seq<Byte>, rest: seq<Byte>)
    requires GoodBits(bits) && ClosesText(close, name)
    ensures Element(RenderBits(bits) + RenderClose(close) + rest, name) == Done(TextOf(bits), rest)
  {
    hide ReadText, ExpectClose, GoodMark, RenderClose;
    Associative(RenderBits(bits), RenderClose(close), rest);
    CloseStartsTag(close, rest);
    BitsRead(bits, RenderClose(close) + rest);
    CloseExpected(close, name, rest);
  }

  /** The tag an opening mark is read as. */
  function TagOf(m: Mark, closing: bool): Tag {
    Tag(LowerAll(m.name), closing, SaysEmpty(m))
  }

  lemma LeafInside(x: Loose, closing: bool, rest: seq<Byte>)
    requires GoodLoose(x) && x.LLeaf?
    ensures ParseAfterTag(TagOf(x.open, closing), Inside(x) + rest) == Done(Tree(x), rest)
  {
    NamesDiffer();
    hide Element, ExpectClose, RenderBits, RenderClose, BitsMean, DecodeLoop, Base64Text, Strtoll, Ascii, GoodMark,
      GoodBits, GoodAfterText, ParseDict, ParseArray;
    TextElementReads(x.bits, x.close, LeafName(x.kind), rest);
    DecodesBase64(TextOf(x.bits), 0, 0);
  }

  lemma BoolInside(x: Loose, closing: bool, rest: seq<Byte>)
    requires GoodLoose(x) && x.LBool?
    ensures ParseAfterTag(TagOf(x.open, closing), Inside(x) + rest) == Done(Tree(x), rest)
  {
    NamesDiffer();
    hide Element, ExpectClose, RenderClose, Ascii, GoodMark, ParseDict, ParseArray;
    if x.end.Some? {
      CloseExpected(x.end.value, if x.b then TRUE else FALSE, rest);
    } else {
      assert Inside(x) + rest == rest;
    }
  }

  lemma EmptyInside(x: Loose, closing: bool, rest: seq<Byte>)
    requires GoodLoose(x) && x.LEmpty?
    ensures ParseAfterTag(TagOf(x.open, closing), Inside(x) + rest) == Done(Tree(x), rest)
  {
    NamesDiffer();
    hide Element, ExpectClose, Ascii, GoodMark, ParseDict, ParseArray;
    assert Inside(x) + rest == rest;
  }

  lemma LooseOpens(m: Mark, name: seq<Byte>, rest: seq<Byte>)
    requires Closes(m, name)
    ensures ReadTag(RenderOpen(m) + rest) == Done(Tag(name, false, SaysEmpty(m)), rest)
  {
    OpenReads(m, rest);
  }

  /** One key and value of a dictionary, whatever the key's tag says of itself. */
  lemma LooseDictStep(s: seq<Byte>, items: seq<Item>, tag: Tag, s1: seq<Byte>, key: seq<Byte>, s2: seq<Byte>,
                      v: Value, s3: seq<Byte>)
    requires ReadTag(s) == Done(tag, s1) && tag.name == KEY && !tag.closing
    requires Element(s1, KEY) == Done(key, s2) && ParseValue(s2) == Done(v, s3)
    ensures ParseDict(s, items) == ParseDict(s3, items + [Item(key, v)])
  {
    hide ReadTag, Element, ParseValue;
  }

  lemma {:induction false} LooseItemsRead(items: seq<LooseItem>, close: Mark, done: seq<Item>, rest: seq<Byte>)
    requires (forall i :: 0 <= i < |items| ==> GoodLooseItem(items[i])) && Closes(close, DICT)
    ensures ParseDict(LooseItems(items) + (RenderClose(close) + rest), done) ==
      Done(Dict(done + ItemTrees(items)), rest)
    decreases items
  {
    hide ParseDict, ParseValue, ReadTag, Element, GoodLoose, GoodMark, GoodBits, GoodAfterText, RenderLoose, RenderBits,
      RenderClose, RenderOpen, Tree, TextOf;
    var tail := RenderClose(close) + rest;
    if items == [] {
      CloseReads(close, rest);
      assert LooseItems(items) + tail == tail && done + [] == done;
      DictEnd(tail, done, ReadTag(tail).value, rest);
    } else {
      var x := items[0];
      assert GoodLooseItem(x);
      var after := LooseItems(items[1..]) + tail;
      var value := RenderLoose(x.value) + after;
      var text := RenderBits(x.bits) + RenderClose(x.close);
      var s := RenderOpen(x.open) + (text + value);
      Associative(RenderLoose(x.value), LooseItems(items[1..]), tail);
      Associative(LooseKey(x), RenderLoose(x.value) + LooseItems(items[1..]), tail);
      Associative(RenderOpen(x.open), text, value);
      assert LooseItems(items) + tail == s;
      LooseOpens(x.open, KEY, text + value);
      TextElementReads(x.bits, x.close, KEY, value);
      LooseRoundTrip(x.value, after);
      LooseDictStep(s, done, Tag(KEY, false, SaysEmpty(x.open)), text + value, TextOf(x.bits), value, Tree(x.value),
                    after);
      LooseItemsRead(items[1..], close, done + [Item(TextOf(x.bits), Tree(x.value))], rest);
      assert done + [Item(TextOf(x.bits), Tree(x.value))] + ItemTrees(items[1..]) == done + ItemTrees(items);
    }
  }

  lemma {:induction false} LooseElemsRead(elems: seq<Loose>, close: Mark, done: seq<Value>, rest: seq<Byte>)
    requires (forall i :: 0 <= i < |elems| ==> GoodLoose(elems[i])) && Closes(close, ARRAY)
    ensures ParseArray(LooseElems(elems) + (RenderClose(close) + rest), done) ==
      Done(Array(done + ElemTrees(elems)), rest)
    decreases elems
  {
    hide ParseArray, ParseValue, ReadTag, GoodLoose, GoodMark, RenderLoose, RenderClose, Tree;
    var tail := RenderClose(close) + rest;
    if elems == [] {
      CloseReads(close, rest);
      assert LooseElems(elems) + tail == tail && done + [] == done;
      ArrayEnd(tail, done, ReadTag(tail).value, rest);
    } else {
      var after := LooseElems(elems[1..]) + tail;
      Associative(RenderLoose(elems[0]), LooseElems(elems[1..]), tail);
      LooseRoundTrip(elems[0], after);
      ArrayStep(RenderLoose(elems[0]) + after, done, Tree(elems[0]), after);
      LooseElemsRead(elems[1..], close, done + [Tree(elems[0])], rest);
      assert done + [Tree(elems[0])] + ElemTrees(elems[1..]) == done + ElemTrees(elems);
    }
  }

  lemma DictIs(tag: Tag, s: seq<Byte>)
    requires tag.name == DICT && !tag.selfClosing
    ensures ParseAfterTag(tag, s) == ParseDict(s, [])
  {
    hide ParseDict, ParseArray;
  }

  lemma ArrayIs(tag: Tag, s: seq<Byte>)
    requires tag.name == ARRAY && !tag.selfClosing
    ensures ParseAfterTag(tag, s) == ParseArray(s, [])
  {
    NamesDiffer();
    hide ParseDict, ParseArray, Ascii;
  }

  /** After its first tag, whichever way that was written, the rest is read as the tree. */
  lemma {:induction false} InsideReads(x: Loose, closing: bool, rest: seq<Byte>)
    requires GoodLoose(x)
    ensures ParseAfterTag(TagOf(x.open, closing), Inside(x) + rest) == Done(Tree(x), rest)
    decreases x, 1
  {
    hide GoodLoose, ParseAfterTag, Inside, Tree;
    match x {
      case LBool(_, _, _) => BoolInside(x, closing, rest);
      case LLeaf(_, _, _, _) => LeafInside(x, closing, rest);
      case LEmpty(_, _) => EmptyInside(x, closing, rest);
      case LDict(_, _, _) => DictInside(x, closing, rest);
      case LArray(_, _, _) => ArrayInside(x, closing, rest);
    }
  }

  lemma {:induction false} DictInside(x: Loose, closing: bool, rest: seq<Byte>)
    requires GoodLoose(x) && x.LDict?
    ensures ParseAfterTag(TagOf(x.open, closing), Inside(x) + rest) == Done(Tree(x), rest)
    decreases x, 0
  {
    hide GoodMark, RenderClose, ParseAfterTag, ParseDict, Ascii, LooseItems;
    Associative(LooseItems(x.items), RenderClose(x.close), rest);
    DictIs(TagOf(x.open, closing), Inside(x) + rest);
    LooseItemsRead(x.items, x.close, [], rest);
    assert [] + ItemTrees(x.items) == ItemTrees(x.items);
  }

  lemma {:induction false} ArrayInside(x: Loose, closing: bool, rest: seq<Byte>)
    requires GoodLoose(x) && x.LArray?
    ensures ParseAfterTag(TagOf(x.open, closing), Inside(x) + rest) == Done(Tree(x), rest)
    decreases x, 0
  {
    hide GoodMark, RenderClose, ParseAfterTag, ParseArray, Ascii, LooseElems;
    Associative(LooseElems(x.elems), RenderClose(x.close), rest);
    ArrayIs(TagOf(x.open, closing), Inside(x) + rest);
    LooseElemsRead(x.elems, x.close, [], rest);
    assert [] + ElemTrees(x.elems) == ElemTrees(x.elems);
  }

  lemma OpenIsGood(x: Loose)
    requires GoodLoose(x)
    ensures GoodMark(x.open)
  {
  }

  lemma ValueIsAfterTag(s: seq<Byte>, tag: Tag, rest: seq<Byte>)
    requires ReadTag(s) == Done(tag, rest) && !tag.closing
    ensures ParseValue(s) == ParseAfterTag(tag, rest)
  {
    hide ReadTag, ParseAfterTag;
  }

  lemma {:induction false} LooseRoundTrip(x: Loose, rest: seq<Byte>)
    requires GoodLoose(x)
    ensures ParseValue(RenderLoose(x) + rest) == Done(Tree(x), rest)
    decreases x, 2
  {
    OpenIsGood(x);
    hide GoodLoose, ReadTag, ParseAfterTag, ParseValue, GoodMark, RenderOpen, Inside, Tree;
    Associative(RenderOpen(x.open), Inside(x), rest);
    OpenReads(x.open, Inside(x) + rest);
    InsideReads(x, false, rest);
    ValueIsAfterTag(RenderLoose(x) + rest, TagOf(x.open, false), Inside(x) + rest);
  }

  // --------------------------------------------------------------- documents

  /** A root element, whose first tag may be written as a closing one; or one in a <plist> wrapper. */
  datatype LooseDocument = LBare(x: Loose, slash: bool) | LWrapped(open: Mark, x: Loose, close: Mark)

  predicate GoodLooseDocument(d: LooseDocument) {
    GoodLoose(d.x) && (d.LWrapped? ==> Closes(d.open, PLIST) && Closes(d.close, PLIST))
  }

  function RenderLooseDocument(d: LooseDocument): seq<Byte> {
    match d
    case LBare(x, slash) => (if slash then RenderClose(x.open) else RenderOpen(x.open)) + Inside(x)
    case LWrapped(open, x, close) => RenderOpen(open) + (RenderLoose(x) + RenderClose(close))
  }

  lemma RootName(x: Loose)
    requires GoodLoose(x)
    ensures LowerAll(x.open.name) != PLIST
  {
    NamesDiffer();
    hide GoodMark, Ascii;
  }

  lemma BareDocument(s: seq<Byte>, tag: Tag, rest: seq<Byte>)
    requires ReadTag(s) == Done(tag, rest) && (tag.name != PLIST || tag.closing)
    ensures ParseString(s) == ParseAfterTag(tag, rest)
  {
    hide ReadTag, ParseAfterTag, ParseValue, ExpectClose;
  }

  lemma WrappedDocument(s: seq<Byte>, tag: Tag, s1: seq<Byte>, v: Value, s2: seq<Byte>, rest: seq<Byte>)
    requires ReadTag(s) == Done(tag, s1) && tag.name == PLIST && !tag.closing
    requires ParseValue(s1) == Done(v, s2) && ExpectClose(s2, PLIST) == Done((), rest)
    ensures ParseString(s) == Done(v, rest)
  {
    hide ReadTag, ParseAfterTag, ParseValue, ExpectClose;
  }

  lemma BareReadsAs(x: Loose, slash: bool, rest: seq<Byte>)
    requires GoodLoose(x)
    ensures ParseString(RenderLooseDocument(LBare(x, slash)) + rest) == Done(Tree(x), rest)
  {
    hide GoodLoose, ReadTag, ParseAfterTag, ParseString, GoodMark, RenderOpen, RenderClose, Inside, Tree;
    OpenIsGood(x);
    var open := if slash then RenderClose(x.open) else RenderOpen(x.open);
    Associative(open, Inside(x), rest);
    if slash {
      CloseReads(x.open, Inside(x) + rest);
    } else {
      OpenReads(x.open, Inside(x) + rest);
    }
    RootName(x);
    BareDocument(open + Inside(x) + rest, TagOf(x.open, slash), Inside(x) + rest);
    InsideReads(x, slash, rest);
  }

  lemma WrappedReadsAs(open: Mark, x: Loose, close: Mark, rest: seq<Byte>)
    requires GoodLoose(x) && Closes(open, PLIST) && Closes(close, PLIST)
    ensures ParseString(RenderLooseDocument(LWrapped(open, x, close)) + rest) == Done(Tree(x), rest)
  {
    hide GoodLoose, ReadTag, ParseValue, ExpectClose, ParseString, GoodMark, RenderOpen, RenderClose, RenderLoose, Tree;
    var tail := RenderClose(close) + rest;
    Associative(RenderLoose(x), RenderClose(close), rest);
    Associative(RenderOpen(open), RenderLoose(x) + RenderClose(close), rest);
    LooseOpens(open, PLIST, RenderLoose(x) + tail);
    LooseRoundTrip(x, tail);
    CloseExpected(close, PLIST, rest);
    WrappedDocument(RenderOpen(open) + (RenderLoose(x) + tail), Tag(PLIST, false, SaysEmpty(open)),
                    RenderLoose(x) + tail, Tree(x), tail, rest);
  }

  /** Every document of this form is read as its tree. */
  lemma LooseDocumentReads(d: LooseDocument, rest: seq<Byte>)
    requires GoodLooseDocument(d)
    ensures ParseString(RenderLooseDocument(d) + rest) == Done(Tree(d.x), rest)
  {
    hide GoodLoose, ParseString, RenderLooseDocument, Tree, Closes;
    match d
    case LBare(x, slash) => BareReadsAs(x, slash, rest);
    case LWrapped(open, x, close) => WrappedReadsAs(open, x, close, rest);
  }
}
