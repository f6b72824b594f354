/** Whole property list files: the optional wrapper, and that every tree can be written and read back. */
module PlistDocument {
  import opened Common
  import opened PlistBase64
  import opened PlistText
  import opened PlistSpelling
  import opened PlistGrammar
  import opened PlistMarkup
  import opened PlistRoundTrip

  datatype Document = Bare(x: Xml) | Wrapped(open: Mark, x: Xml, close: Mark)

  predicate GoodDocument(d: Document) {
    GoodXml(d.x) && (d.Wrapped? ==> Opens(d.open, PLIST) && Closes(d.close, PLIST))
  }

  function RenderDocument(d: Document): seq<Byte>
    requires GoodDocument(d)
  {
    match d
    case Bare(x) => Render(x)
    case Wrapped(open, x, close) => RenderOpen(open) + (Render(x) + RenderClose(close))
  }

  lemma BareReads(s: seq<Byte>, v: Value, rest: seq<Byte>)
    requires ParseValue(s) == Done(v, rest)
    ensures ParseString(s) == Done(v, rest)
  {
    hide ReadTag, ParseDict, ParseArray, Element, ExpectClose, Ascii;
    NamesDiffer();
  }

  /**
   * plist_parse_string inverts the printer: with or without the <plist>
   * wrapper, whatever noise, attributes, letter case and spellings are chosen,
   * and whatever follows the document.
   */
  lemma DocumentRoundTrip(d: Document, trailing: seq<Byte>)
    requires GoodDocument(d)
    ensures ParseString(RenderDocument(d) + trailing) == Done(Meaning(d.x), trailing)
  {
    match d {
      case Bare(x) =>
        RoundTrip(x, trailing);
        hide ParseString, ParseValue;
        BareReads(Render(x) + trailing, Meaning(x), trailing);
      case Wrapped(open, x, close) =>
        var tail := RenderClose(close) + trailing;
        Associative(Render(x), RenderClose(close), trailing);
        Associative(RenderOpen(open), Render(x) + RenderClose(close), trailing);
        OpenTag(open, PLIST, Render(x) + tail);
        RoundTrip(x, tail);
        CloseExpected(close, PLIST, trailing);
        hide ReadTag, ParseValue, ExpectClose, GoodMark, GoodXml, Render, RenderOpen, RenderClose;
    }
  }

  // ----------------------------------------------------- every tree is writable

  /** The trees a property list can hold: C strings, 64-bit integers. */
  predicate Writable(v: Value) {
    match v
    case Dict(items) => forall i :: 0 <= i < |items| ==> NulFree(items[i].key) && Writable(items[i].value)
    case Array(elems) => forall i :: 0 <= i < |elems| ==> Writable(elems[i])
    case Str(text) => NulFree(text)
    case Integer(i) => -TWO_63 <= i < TWO_63
    case Real(digits) => NulFree(digits)
    case Boolean(_) => true
    case Data(_) => true
  }

  function PlainMark(name: seq<Byte>): Mark {
    Mark([], name, [])
  }

  lemma {:induction false} EncodingIsText(b: seq<Byte>)
    ensures NulFree(Encode(b)) && Strip(Encode(b)) == Encode(b)
  {
    if |b| >= 3 {
      var rest := Encode(b[3..]);
      EncodingIsText(b[3..]);
      var l := [Letter(b[0] / 4), Letter(b[0] % 4 * 16 + b[1] / 16), Letter(b[1] % 16 * 4 + b[2] / 64),
                Letter(b[2] % 64)];
      assert Encode(b) == l + rest;
      StripKeeps(l, rest);
    } else {
      assert Encode(b) + [] == Encode(b);
      StripKeeps(Encode(b), []);
    }
  }

  lemma {:induction false} StripKeeps(a: seq<Byte>, b: seq<Byte>)
    requires forall c :: c in a ==> !IsSpace(c)
    ensures Strip(a + b) == a + Strip(b)
  {
    if a == [] {
      assert a + b == b;
    } else {
      assert !IsSpace(a[0]);
      assert forall c :: c in a[1..] ==> c in a;
      StripKeeps(a[1..], b);
      assert (a + b)[1..] == a[1..] + b;
    }
  }

  lemma NumberIsNulFree(minus: bool, digits: seq<Byte>)
    requires Digits(digits, 10)
    ensures NulFree((if minus then [45] else []) + digits)
  {
    NotADigit(digits, 10, 0);
  }

  /** The plainest way to write a tree. */
  function Write(v: Value): Xml
    requires Writable(v)
  {
    match v
    case Boolean(b) => XBool(PlainMark(if b then TRUE else FALSE), b, None)
    case Str(text) => XString(PlainMark(STRING), Plain(text), PlainMark(STRING))
    case Real(digits) => XReal(PlainMark(REAL), Plain(digits), PlainMark(REAL))
    case Integer(i) =>
      var digits := Decimal(if i < 0 then -i else i);
      NumberIsNulFree(i < 0, digits);
      XInteger(PlainMark(INTEGER), [], if i < 0 then Minus else NoSign, digits,
               Plain((if i < 0 then [45] else []) + digits), PlainMark(INTEGER))
    case Data(bytes) =>
      EncodingIsText(bytes);
      XData(PlainMark(DATA), bytes, Plain(Encode(bytes)), PlainMark(DATA))
    case Dict(items) => XDict(PlainMark(DICT), WriteItems(items), PlainMark(DICT))
    case Array(elems) => XArray(PlainMark(ARRAY), WriteElems(elems), PlainMark(ARRAY))
  }

  function WriteItems(items: seq<Item>): (xs: seq<XItem>)
    requires forall i :: 0 <= i < |items| ==> NulFree(items[i].key) && Writable(items[i].value)
    ensures |xs| == |items|
  {
    if items == [] then []
    else
      assert NulFree(items[0].key) && Writable(items[0].value);
      [XItem(PlainMark(KEY), Plain(items[0].key), PlainMark(KEY), Write(items[0].value))] + WriteItems(items[1..])
  }

  function WriteElems(elems: seq<Value>): (xs: seq<Xml>)
    requires forall i :: 0 <= i < |elems| ==> Writable(elems[i])
    ensures |xs| == |elems|
  {
    if elems == [] then [] else [Write(elems[0])] + WriteElems(elems[1..])
  }

  predicate LowerName(s: seq<Byte>) {
    0 < |s| <= NAME_LIMIT && forall i :: 0 <= i < |s| ==> 97 <= s[i] <= 122
  }

  lemma BareMark(name: seq<Byte>)
    requires LowerName(name)
    ensures Opens(PlainMark(name), name) && Closes(PlainMark(name), name) && ClosesText(PlainMark(name), name)
  {
    assert LowerAll(name) == name;
  }

  lemma AsciiName(s: string)
    requires 0 < |s| <= NAME_LIMIT && forall i :: 0 <= i < |s| ==> 'a' <= s[i] <= 'z'
    ensures LowerName(Ascii(s))
  {
  }

  lemma ElementNames()
    ensures LowerName(TRUE) && LowerName(FALSE) && LowerName(DICT) && LowerName(ARRAY) && LowerName(STRING)
    ensures LowerName(INTEGER) && LowerName(REAL) && LowerName(DATA) && LowerName(KEY)
  {
    hide Ascii, LowerName;
    AsciiName("true");
    AsciiName("false");
    AsciiName("dict");
    AsciiName("array");
    AsciiName("string");
    AsciiName("integer");
    AsciiName("real");
    AsciiName("data");
    AsciiName("key");
  }

  lemma {:induction false} ItemsWritten(items: seq<Item>)
    requires forall i :: 0 <= i < |items| ==> NulFree(items[i].key) && Writable(items[i].value)
    ensures var xs := WriteItems(items);
      (forall i :: 0 <= i < |xs| ==> GoodItem(xs[i])) && ItemsMean(xs) == items
    decreases items
  {
    if items != [] {
      assert NulFree(items[0].key) && Writable(items[0].value);
      hide Write, Opens, ClosesText, GoodXml, Meaning;
      ElementNames();
      BareMark(KEY);
      PlainMeans(items[0].key);
      Written(items[0].value);
      ItemsWritten(items[1..]);
      var xs := WriteItems(items);
      assert xs[1..] == WriteItems(items[1..]);
      assert items == [Item(items[0].key, items[0].value)] + items[1..];
    }
  }

  lemma {:induction false} ElemsWritten(elems: seq<Value>)
    requires forall i :: 0 <= i < |elems| ==> Writable(elems[i])
    ensures var xs := WriteElems(elems);
      (forall i :: 0 <= i < |xs| ==> GoodXml(xs[i])) && ElemsMean(xs) == elems
    decreases elems
  {
    if elems != [] {
      hide Write, GoodXml, Meaning;
      Written(elems[0]);
      ElemsWritten(elems[1..]);
      var xs := WriteElems(elems);
      assert xs[1..] == WriteElems(elems[1..]);
      assert elems == [elems[0]] + elems[1..];
    }
  }

  /** What Write writes is well formed, and stands for the tree. */
  lemma {:induction false} Written(v: Value)
    requires Writable(v)
    ensures GoodXml(Write(v)) && Meaning(Write(v)) == v
    decreases v
  {
    hide Opens, Closes, ClosesText, Ascii, Encode, Strip, Decimal, Numeral, Content;
    ElementNames();
    match v {
      case Boolean(b) => BareMark(if b then TRUE else FALSE);
      case Str(text) =>
        BareMark(STRING);
        PlainMeans(text);
      case Real(digits) =>
        BareMark(REAL);
        PlainMeans(digits);
      case Integer(i) =>
        BareMark(INTEGER);
        var digits := Decimal(if i < 0 then -i else i);
        NumberIsNulFree(i < 0, digits);
        PlainMeans((if i < 0 then [45] else []) + digits);
      case Data(bytes) =>
        BareMark(DATA);
        EncodingIsText(bytes);
        PlainMeans(Encode(bytes));
      case Dict(items) =>
        BareMark(DICT);
        ItemsWritten(items);
      case Array(elems) =>
        BareMark(ARRAY);
        ElemsWritten(elems);
    }
  }

  /** Every tree is read back from the document written for it. */
  lemma EveryTreeReadsBack(v: Value, trailing: seq<Byte>)
    requires Writable(v)
    ensures GoodXml(Write(v)) && ParseString(RenderDocument(Bare(Write(v))) + trailing) == Done(v, trailing)
  {
    Written(v);
    hide GoodXml, Write, ParseString, Render, Meaning;
    DocumentRoundTrip(Bare(Write(v)), trailing);
  }
}
