/**
 * A printer for property lists, with every freedom the format leaves a writer,
 * and the theorem that the reader inverts it.
 */
module PlistRoundTrip {
  import opened Common
  import opened PlistBase64
  import opened PlistText
  import opened PlistSpelling
  import opened PlistGrammar
  import opened PlistMarkup

  datatype Sign = NoSign | Plus | Minus

  /** A property list as written: which tags, spellings and noise. */
  datatype Xml =
    | XBool(open: Mark, b: bool, end: Option<Mark>)
    | XString(open: Mark, text: seq<Spelling>, close: Mark)
    | XInteger(open: Mark, lead: seq<Byte>, sign: Sign, digits: seq<Byte>, text: seq<Spelling>, close: Mark)
    | XReal(open: Mark, text: seq<Spelling>, close: Mark)
    | XData(open: Mark, bytes: seq<Byte>, text: seq<Spelling>, close: Mark)
    | XDict(open: Mark, items: seq<XItem>, close: Mark)
    | XArray(open: Mark, elems: seq<Xml>, close: Mark)
    | XEmpty(open: Mark, kind: Empty)

  datatype Empty = NoText | NoBytes | NoItems | NoElems

  datatype XItem = XItem(open: Mark, key: seq<Spelling>, close: Mark, value: Xml)

  function SignBytes(s: Sign): seq<Byte> {
    match s
    case NoSign => []
    case Plus => [43]
    case Minus => [45]
  }

  function EmptyName(k: Empty): seq<Byte> {
    match k
    case NoText => STRING
    case NoBytes => DATA
    case NoItems => DICT
    case NoElems => ARRAY
  }

  predicate Opens(m: Mark, name: seq<Byte>) {
    GoodOpen(m) && LowerAll(m.name) == name
  }

  predicate Closes(m: Mark, name: seq<Byte>) {
    GoodMark(m) && LowerAll(m.name) == name
  }

  predicate ClosesText(m: Mark, name: seq<Byte>) {
    GoodAfterText(m) && LowerAll(m.name) == name
  }

  predicate GoodXml(x: Xml) {
    match x
    case XBool(open, b, end) =>
      var name := if b then TRUE else FALSE;
      if end == None then Closes(open, name) else Opens(open, name) && Closes(end.value, name)
    case XString(open, text, close) => Opens(open, STRING) && AllGood(text) && ClosesText(close, STRING)
    case XInteger(open, lead, sign, digits, text, close) =>
      && Opens(open, INTEGER) && AllGood(text) && ClosesText(close, INTEGER)
      && (forall c :: c in lead ==> IsSpace(c)) && digits != [] && Digits(digits, 10)
      && Content(text) == lead + SignBytes(sign) + digits
    case XReal(open, text, close) => Opens(open, REAL) && AllGood(text) && ClosesText(close, REAL)
    case XData(open, bytes, text, close) =>
      Opens(open, DATA) && AllGood(text) && ClosesText(close, DATA) && Strip(Content(text)) == Encode(bytes)
    case XDict(open, items, close) =>
      Opens(open, DICT) && Closes(close, DICT) && forall i :: 0 <= i < |items| ==> GoodItem(items[i])
    case XArray(open, elems, close) =>
      Opens(open, ARRAY) && Closes(close, ARRAY) && forall i :: 0 <= i < |elems| ==> GoodXml(elems[i])
    case XEmpty(open, kind) => Closes(open, EmptyName(kind))
  }

  predicate GoodItem(x: XItem) {
    Opens(x.open, KEY) && AllGood(x.key) && ClosesText(x.close, KEY) && GoodXml(x.value)
  }

  function Render(x: Xml): seq<Byte>
    requires GoodXml(x)
  {
    match x
    case XBool(open, _, None) => RenderEmpty(open)
    case XBool(open, _, Some(close)) => RenderOpen(open) + RenderClose(close)
    case XString(open, text, close) => RenderOpen(open) + (RenderAll(text) + RenderClose(close))
    case XInteger(open, _, _, _, text, close) => RenderOpen(open) + (RenderAll(text) + RenderClose(close))
    case XReal(open, text, close) => RenderOpen(open) + (RenderAll(text) + RenderClose(close))
    case XData(open, _, text, close) => RenderOpen(open) + (RenderAll(text) + RenderClose(close))
    case XDict(open, items, close) => RenderOpen(open) + (RenderItems(items) + RenderClose(close))
    case XArray(open, elems, close) => RenderOpen(open) + (RenderElems(elems) + RenderClose(close))
    case XEmpty(open, _) => RenderEmpty(open)
  }

  function RenderItems(items: seq<XItem>): seq<Byte>
    requires forall i :: 0 <= i < |items| ==> GoodItem(items[i])
  {
    if items == [] then []
    else
      assert GoodItem(items[0]);
      var x := items[0];
      RenderOpen(x.open) + (RenderAll(x.key) + RenderClose(x.close)) + Render(x.value) + RenderItems(items[1..])
  }

  function RenderElems(elems: seq<Xml>): seq<Byte>
    requires forall i :: 0 <= i < |elems| ==> GoodXml(elems[i])
  {
    if elems == [] then [] else Render(elems[0]) + RenderElems(elems[1..])
  }

  /** The tree a written property list stands for. */
  function Meaning(x: Xml): Value
    requires GoodXml(x)
  {
    match x
    case XBool(_, b, _) => Boolean(b)
    case XString(_, text, _) => Str(Content(text))
    case XInteger(_, _, sign, digits, _, _) =>
      Integer(Clamp(if sign == Minus then 0 - Numeral(digits, 10) as int else Numeral(digits, 10)))
    case XReal(_, text, _) => Real(Content(text))
    case XData(_, bytes, _, _) => Data(bytes)
    case XDict(_, items, _) => Dict(ItemsMean(items))
    case XArray(_, elems, _) => Array(ElemsMean(elems))
    case XEmpty(_, NoText) => Str([])
    case XEmpty(_, NoBytes) => Data([])
    case XEmpty(_, NoItems) => Dict([])
    case XEmpty(_, NoElems) => Array([])
  }

  function ItemsMean(items: seq<XItem>): seq<Item>
    requires forall i :: 0 <= i < |items| ==> GoodItem(items[i])
  {
    if items == [] then []
    else
      assert GoodItem(items[0]);
      [Item(Content(items[0].key), Meaning(items[0].value))] + ItemsMean(items[1..])
  }

  function ElemsMean(elems: seq<Xml>): seq<Value>
    requires forall i :: 0 <= i < |elems| ==> GoodXml(elems[i])
  {
    if elems == [] then [] else [Meaning(elems[0])] + ElemsMean(elems[1..])
  }

  // -------------------------------------------------------------- round trip

  /** The element names are different from one another. */
  lemma NamesDiffer()
    ensures TRUE != FALSE && DICT !in {TRUE, FALSE, ARRAY, STRING, INTEGER, REAL, DATA, KEY, PLIST}
    ensures ARRAY !in {TRUE, FALSE, STRING, INTEGER, REAL, DATA, KEY, PLIST}
    ensures STRING !in {TRUE, FALSE, INTEGER, REAL, DATA, KEY, PLIST}
    ensures INTEGER !in {TRUE, FALSE, REAL, DATA, KEY, PLIST} && REAL !in {TRUE, FALSE, DATA, KEY, PLIST}
    ensures DATA !in {TRUE, FALSE, KEY, PLIST} && KEY !in {TRUE, FALSE, PLIST} && PLIST !in {TRUE, FALSE}
  {
    assert TRUE[0] == 0x74 && DICT[0] == 0x64 && REAL[0] == 0x72 && DATA[0] == 0x64 && DICT[1] == 0x69
      && DATA[1] == 0x61;
    assert FALSE[0] == 0x66 && ARRAY[0] == 0x61 && PLIST[0] == 0x70;
  }

  lemma SignTaken(sign: Sign, digits: seq<Byte>)
    requires digits != [] && Digits(digits, 10)
    ensures TakeSign(SkipWs(SignBytes(sign) + digits)) == (sign == Minus, digits)
  {
    assert IsDigit(digits[0], 10);
    var t := SignBytes(sign) + digits;
    assert SkipWs(t) == t;
    if sign != NoSign {
      assert t[1..] == digits;
    } else {
      assert t == digits;
    }
  }

  lemma NumberText(lead: seq<Byte>, sign: Sign, digits: seq<Byte>)
    requires (forall c :: c in lead ==> IsSpace(c)) && Digits(digits, 10)
    ensures NulFree(lead + SignBytes(sign) + digits)
  {
    NotADigit(digits, 10, 0);
    hide Digits;
    assert 0 !in lead;
  }

  /** strtoll of white space, a sign and a numeral. */
  lemma StrtollReads(lead: seq<Byte>, sign: Sign, digits: seq<Byte>)
    requires (forall c :: c in lead ==> IsSpace(c)) && digits != [] && Digits(digits, 10)
    ensures Strtoll(lead + SignBytes(sign) + digits) ==
      Clamp(if sign == Minus then 0 - Numeral(digits, 10) as int else Numeral(digits, 10))
  {
    hide SkipWs, TakeSign, TakeDigits, Digits, Numeral, CString, NulFree, SignBytes, Clamp;
    NumberText(lead, sign, digits);
    Associative(lead, SignBytes(sign), digits);
    SkipsSpace(lead, SignBytes(sign) + digits);
    SignTaken(sign, digits);
    TakesAll(digits, 10);
  }

  lemma OpenTag(m: Mark, name: seq<Byte>, rest: seq<Byte>)
    requires Opens(m, name)
    ensures ReadTag(RenderOpen(m) + rest) == Done(Tag(name, false, false), rest)
  {
    OpenReads(m, rest);
  }

  lemma EmptyTag(m: Mark, name: seq<Byte>, rest: seq<Byte>)
    requires Closes(m, name)
    ensures ReadTag(RenderEmpty(m) + rest) == Done(Tag(name, false, true), rest)
  {
    OpenReads(m.(attrs := m.attrs + [SLASH]), rest);
  }

  /** parse_value on a tag that opens an element. */
  lemma ValueAfterTag(s: seq<Byte>, tag: Tag, rest: seq<Byte>)
    requires ReadTag(s) == Done(tag, rest) && !tag.closing
    ensures ParseValue(s) == ParseAfterTag(tag, rest)
  {
  }

  lemma BoolReads(x: Xml, rest: seq<Byte>)
    requires GoodXml(x) && x.XBool?
    ensures ParseValue(Render(x) + rest) == Done(Meaning(x), rest)
  {
    hide ReadTag, ExpectClose, GoodMark, GoodOpen, RenderOpen, RenderClose, RenderEmpty, Ascii;
    NamesDiffer();
    var name := if x.b then TRUE else FALSE;
    if x.end == None {
      EmptyTag(x.open, name, rest);
    } else {
      Associative(RenderOpen(x.open), RenderClose(x.end.value), rest);
      OpenTag(x.open, name, RenderClose(x.end.value) + rest);
      CloseExpected(x.end.value, name, rest);
    }
  }

  lemma TextReads(open: Mark, name: seq<Byte>, text: seq<Spelling>, close: Mark, rest: seq<Byte>)
    requires Opens(open, name) && AllGood(text) && ClosesText(close, name)
    ensures var s := RenderOpen(open) + (RenderAll(text) + RenderClose(close)) + rest;
      exists s1 :: ReadTag(s) == Done(Tag(name, false, false), s1) && Element(s1, name) == Done(Content(text), rest)
  {
    hide ReadTag, Element, GoodMark, GoodOpen, RenderOpen, RenderClose;
    var s1 := RenderAll(text) + (RenderClose(close) + rest);
    Associative(RenderAll(text), RenderClose(close), rest);
    Associative(RenderOpen(open), RenderAll(text) + RenderClose(close), rest);
    OpenTag(open, name, s1);
    ElementReads(text, close, name, rest);
  }

  lemma LeafReads(x: Xml, rest: seq<Byte>)
    requires GoodXml(x) && (x.XString? || x.XInteger? || x.XReal? || x.XData?)
    ensures ParseValue(Render(x) + rest) == Done(Meaning(x), rest)
  {
    hide ReadTag, Element, GoodMark, GoodOpen, GoodAfterText, RenderOpen, RenderClose, Strtoll, DecodeLoop, Encode,
      Ascii;
    NamesDiffer();
    var name := if x.XString? then STRING else if x.XInteger? then INTEGER else if x.XReal? then REAL else DATA;
    TextReads(x.open, name, x.text, x.close, rest);
    match x {
      case XInteger(_, lead, sign, digits, _, _) => StrtollReads(lead, sign, digits);
      case XData(_, bytes, text, _) => DecodeInvertsEncode(bytes, Content(text));
      case _ =>
    }
  }

  lemma EmptyReads(x: Xml, rest: seq<Byte>)
    requires GoodXml(x) && x.XEmpty?
    ensures ParseValue(Render(x) + rest) == Done(Meaning(x), rest)
  {
    hide ReadTag, GoodMark, RenderOpen, RenderEmpty, Ascii;
    NamesDiffer();
    EmptyTag(x.open, EmptyName(x.kind), rest);
  }

  /** The rewind of the array loop: noise skipped once more makes no difference. */
  lemma Rewind(s: seq<Byte>)
    requires ReadTag(s).Done?
    ensures SkipNoise(s).Done? && ReadTag(SkipNoise(s).rest) == ReadTag(s)
  {
    var save := SkipNoise(s).rest;
    assert SkipWs(save) == save;
  }

  lemma RewindValue(s: seq<Byte>)
    requires ReadTag(s).Done?
    ensures SkipNoise(s).Done? && ParseValue(SkipNoise(s).rest) == ParseValue(s)
  {
    Rewind(s);
    hide ReadTag, SkipNoise;
  }

  /** One turn of the array loop. */
  lemma ArrayTurn(s: seq<Byte>, elems: seq<Value>)
    requires ReadTag(s).Done?
    ensures ParseArray(s, elems) ==
      if ReadTag(s).value.closing && ReadTag(s).value.name == ARRAY then Done(Array(elems), ReadTag(s).rest)
      else if ParseValue(s).Done? then ParseArray(ParseValue(s).rest, elems + [ParseValue(s).value])
      else ParseValue(s)
  {
    Rewind(s);
    RewindValue(s);
    hide ReadTag, SkipNoise, ParseValue;
  }

  /** One element of an array, then the rest of the loop. */
  lemma ArrayStep(s: seq<Byte>, elems: seq<Value>, v: Value, rest: seq<Byte>)
    requires ParseValue(s) == Done(v, rest)
    ensures ParseArray(s, elems) == ParseArray(rest, elems + [v])
  {
    hide ReadTag, ParseArray;
    assert ReadTag(s).Done? && !ReadTag(s).value.closing;
    hide ParseValue;
    ArrayTurn(s, elems);
  }

  lemma ArrayEnd(s: seq<Byte>, elems: seq<Value>, tag: Tag, rest: seq<Byte>)
    requires ReadTag(s) == Done(tag, rest) && tag.closing && tag.name == ARRAY
    ensures ParseArray(s, elems) == Done(Array(elems), rest)
  {
    hide ReadTag, ParseArray, ParseValue;
    ArrayTurn(s, elems);
  }

  /** One key and value of a dictionary, then the rest of the loop. */
  lemma DictStep(s: seq<Byte>, items: seq<Item>, s1: seq<Byte>, key: seq<Byte>, s2: seq<Byte>, v: Value, s3: seq<Byte>)
    requires ReadTag(s) == Done(Tag(KEY, false, false), s1) && Element(s1, KEY) == Done(key, s2)
    requires ParseValue(s2) == Done(v, s3)
    ensures ParseDict(s, items) == ParseDict(s3, items + [Item(key, v)])
  {
    hide ReadTag, Element, ParseValue;
  }

  lemma DictEnd(s: seq<Byte>, items: seq<Item>, tag: Tag, rest: seq<Byte>)
    requires ReadTag(s) == Done(tag, rest) && tag.closing && tag.name == DICT
    ensures ParseDict(s, items) == Done(Dict(items), rest)
  {
    hide ReadTag;
  }

  lemma {:induction false} ElemsRead(elems: seq<Xml>, close: Mark, done: seq<Value>, rest: seq<Byte>)
    requires (forall i :: 0 <= i < |elems| ==> GoodXml(elems[i])) && Closes(close, ARRAY)
    ensures ParseArray(RenderElems(elems) + (RenderClose(close) + rest), done) ==
      Done(Array(done + ElemsMean(elems)), rest)
    decreases elems
  {
    hide ParseArray, ParseValue, ReadTag, GoodXml, GoodMark, Render, RenderClose;
    var tail := RenderClose(close) + rest;
    if elems == [] {
      CloseReads(close, rest);
      assert RenderElems(elems) + tail == tail && done + [] == done;
      ArrayEnd(tail, done, ReadTag(tail).value, rest);
    } else {
      var after := RenderElems(elems[1..]) + tail;
      assert RenderElems(elems) + tail == Render(elems[0]) + after;
      RoundTrip(elems[0], after);
      ArrayStep(Render(elems[0]) + after, done, Meaning(elems[0]), after);
      ElemsRead(elems[1..], close, done + [Meaning(elems[0])], rest);
      assert done + [Meaning(elems[0])] + ElemsMean(elems[1..]) == done + ElemsMean(elems);
    }
  }

  lemma {:induction false} ItemsRead(items: seq<XItem>, close: Mark, done: seq<Item>, rest: seq<Byte>)
    requires (forall i :: 0 <= i < |items| ==> GoodItem(items[i])) && Closes(close, DICT)
    ensures ParseDict(RenderItems(items) + (RenderClose(close) + rest), done) ==
      Done(Dict(done + ItemsMean(items)), rest)
    decreases items
  {
    hide ParseDict, ParseValue, ReadTag, Element, GoodXml, GoodMark, GoodOpen, GoodAfterText, Render, RenderClose,
      RenderOpen;
    var tail := RenderClose(close) + rest;
    if items == [] {
      CloseReads(close, rest);
      assert RenderItems(items) + tail == tail && done + [] == done;
      DictEnd(tail, done, ReadTag(tail).value, rest);
    } else {
      var x := items[0];
      var after := RenderItems(items[1..]) + tail;
      var value := Render(x.value) + after;
      var s := RenderOpen(x.open) + (RenderAll(x.key) + RenderClose(x.close)) + value;
      assert RenderItems(items) + tail == s;
      TextReads(x.open, KEY, x.key, x.close, value);
      var s1 :| ReadTag(s) == Done(Tag(KEY, false, false), s1) && Element(s1, KEY) == Done(Content(x.key), value);
      RoundTrip(x.value, after);
      DictStep(s, done, s1, Content(x.key), value, Meaning(x.value), after);
      ItemsRead(items[1..], close, done + [Item(Content(x.key), Meaning(x.value))], rest);
      assert done + [Item(Content(x.key), Meaning(x.value))] + ItemsMean(items[1..]) == done + ItemsMean(items);
    }
  }

  /** The reader inverts the printer, whatever follows. */
  lemma {:induction false} RoundTrip(x: Xml, rest: seq<Byte>)
    requires GoodXml(x)
    ensures ParseValue(Render(x) + rest) == Done(Meaning(x), rest)
    decreases x
  {
    hide ReadTag, GoodMark, GoodOpen, RenderOpen, RenderClose, ParseValue, ParseArray, ParseDict, Ascii;
    match x {
      case XBool(_, _, _) => BoolReads(x, rest);
      case XEmpty(_, _) => EmptyReads(x, rest);
      case XDict(open, items, close) =>
        var body := RenderItems(items) + (RenderClose(close) + rest);
        Associative(RenderItems(items), RenderClose(close), rest);
        Associative(RenderOpen(open), RenderItems(items) + RenderClose(close), rest);
        OpenTag(open, DICT, body);
        ItemsRead(items, close, [], rest);
        assert [] + ItemsMean(items) == ItemsMean(items);
        ValueAfterTag(Render(x) + rest, Tag(DICT, false, false), body);
      case XArray(open, elems, close) =>
        var body := RenderElems(elems) + (RenderClose(close) + rest);
        Associative(RenderElems(elems), RenderClose(close), rest);
        Associative(RenderOpen(open), RenderElems(elems) + RenderClose(close), rest);
        OpenTag(open, ARRAY, body);
        ElemsRead(elems, close, [], rest);
        assert [] + ElemsMean(elems) == ElemsMean(elems);
        NamesDiffer();
        ValueAfterTag(Render(x) + rest, Tag(ARRAY, false, false), body);
      case _ => LeafReads(x, rest);
    }
  }
}
