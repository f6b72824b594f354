/**
 * The property list reader as functions on the bytes left to read: noise,
 * tags, and the recursive descent. Every function says where it stops.
 */
module PlistGrammar {
  import opened Common
  import opened PlistBase64
  import opened PlistText

  datatype Value =
    | Dict(items: seq<Item>)
    | Array(elems: seq<Value>)
    | Str(text: seq<Byte>)
    | Integer(i: int)
    | Real(digits: seq<Byte>)              // the text given to strtod
    | Boolean(b: bool)
    | Data(bytes: seq<Byte>)

  datatype Item = Item(key: seq<Byte>, value: Value)

  // ------------------------------------------------------------------- noise

  predicate StartsWith(s: seq<Byte>, t: seq<Byte>) {
    |t| <= |s| && s[..|t|] == t
  }

  /** memmem_compat: what follows the first occurrence. */
  function AfterText(s: seq<Byte>, t: seq<Byte>): (r: Option<seq<Byte>>)
    requires t != []
    ensures r.Some? ==> |r.value| < |s|
  {
    if StartsWith(s, t) then Some(s[|t|..]) else if s == [] then None else AfterText(s[1..], t)
  }

  /** The end of a <! ... > declaration, with its internal subset in brackets. */
  function AfterDeclaration(s: seq<Byte>, depth: int): (r: Option<seq<Byte>>)
    ensures r.Some? ==> |r.value| < |s|
  {
    if s == [] then None
    else if s[0] == GT && depth <= 0 then Some(s[1..])
    else AfterDeclaration(s[1..], if s[0] == 0x5B then depth + 1 else if s[0] == 0x5D then depth - 1 else depth)
  }

  datatype Skip = Nothing | Skipped(rest: seq<Byte>) | Unterminated

  function Closed(r: Option<seq<Byte>>): Skip {
    if r.Some? then Skipped(r.value) else Unterminated
  }

  const COMMENT: seq<Byte> := [LT, 0x21, 0x2D, 0x2D]
  const COMMENT_END: seq<Byte> := [0x2D, 0x2D, GT]
  const INSTRUCTION_END: seq<Byte> := [0x3F, GT]

  /** skip_prologue_at. */
  function Prologue(s: seq<Byte>): (k: Skip)
    ensures k.Skipped? ==> |k.rest| < |s|
  {
    if |s| < 2 || s[0] != LT then Nothing
    else if s[1] == 0x3F then Closed(AfterText(s, INSTRUCTION_END))
    else if StartsWith(s, COMMENT) then Closed(AfterText(s[4..], COMMENT_END))
    else if s[1] == 0x21 then Closed(AfterDeclaration(s[2..], 0))
    else Nothing
  }

  /** skip_noise. */
  function SkipNoise(s: seq<Byte>): (r: Read<()>)
    ensures r.Done? ==> |r.rest| <= |s|
    ensures r.Done? ==> (r.rest == [] || !IsSpace(r.rest[0])) && Prologue(r.rest).Nothing?
    decreases |s|
  {
    var s1 := SkipWs(s);
    match Prologue(s1)
    case Nothing => Done((), s1)
    case Skipped(rest) => SkipNoise(rest)
    case Unterminated => Failed(s1)
  }

  // -------------------------------------------------------------------- tags

  datatype Tag = Tag(name: seq<Byte>, closing: bool, selfClosing: bool)

  /** isalnum in the C locale, or '_'. */
  predicate IsNameByte(c: Byte) {
    Digit(c).Some? || c == 0x5F
  }

  function Lower(c: Byte): Byte {
    if 65 <= c <= 90 then c + 32 else c
  }

  function NameLength(s: seq<Byte>): (n: nat)
    ensures n <= |s| && (forall i :: 0 <= i < n ==> IsNameByte(s[i])) && (n < |s| ==> !IsNameByte(s[n]))
  {
    if s == [] || !IsNameByte(s[0]) then 0 else 1 + NameLength(s[1..])
  }

  function LowerAll(s: seq<Byte>): (t: seq<Byte>)
    ensures |t| == |s| && forall i :: 0 <= i < |s| ==> t[i] == Lower(s[i])
  {
    seq(|s|, i requires 0 <= i < |s| => Lower(s[i]))
  }

  const NAME_LIMIT: nat := 31

  function Cut(s: seq<Byte>): seq<Byte> {
    if |s| > NAME_LIMIT then s[..NAME_LIMIT] else s
  }

  /** read_tag after the '<' and the '/'. */
  function TagBody(s: seq<Byte>, closing: bool): (r: Read<Tag>)
    ensures r.Done? ==> |r.rest| < |s|
  {
    var n := NameLength(s);
    if n == 0 then Failed(s)
    else
      var k := Find(s[n..], GT);
      if k == |s| - n then Failed(s[n..])
      else Done(Tag(LowerAll(Cut(s[..n])), closing, k > 0 && s[n + k - 1] == SLASH), s[n + k + 1..])
  }

  /** read_tag. */
  function ReadTag(s: seq<Byte>): (r: Read<Tag>)
    ensures r.Done? ==> |r.rest| < |s|
  {
    match SkipNoise(s)
    case Failed(at) => Failed(at)
    case Done(_, s1) =>
      if s1 == [] || s1[0] != LT then Failed(s1)
      else if |s1| > 1 && s1[1] == SLASH then TagBody(s1[2..], true)
      else TagBody(s1[1..], false)
  }

  /** expect_close. */
  function ExpectClose(s: seq<Byte>, name: seq<Byte>): (r: Read<()>)
    ensures r.Done? ==> |r.rest| < |s|
  {
    match ReadTag(s)
    case Failed(at) => Failed(at)
    case Done(tag, rest) => if tag.closing && tag.name == name then Done((), rest) else Failed(rest)
  }

  // ------------------------------------------------------------------ values

  const TRUE := Ascii("true")
  const FALSE := Ascii("false")
  const DICT := Ascii("dict")
  const ARRAY := Ascii("array")
  const STRING := Ascii("string")
  const INTEGER := Ascii("integer")
  const REAL := Ascii("real")
  const DATA := Ascii("data")
  const KEY := Ascii("key")
  const PLIST := Ascii("plist")

  /** Text up to the closing tag of this name. */
  function Element(s: seq<Byte>, name: seq<Byte>): (r: Read<seq<Byte>>)
    ensures r.Done? ==> |r.rest| < |s|
  {
    match ReadText(s)
    case Failed(at) => Failed(at)
    case Done(text, s1) =>
      match ExpectClose(s1, name)
      case Failed(at) => Failed(at)
      case Done(_, rest) => Done(CString(text), rest)
  }

  /** parse_after_tag for everything but dictionaries and arrays. */
  function ParseLeaf(tag: Tag, s: seq<Byte>): (r: Read<Value>)
    ensures r.Done? ==> |r.rest| <= |s|
  {
    if tag.name == TRUE || tag.name == FALSE then
      if tag.selfClosing then Done(Boolean(tag.name == TRUE), s)
      else
        match ExpectClose(s, tag.name)
        case Failed(at) => Failed(at)
        case Done(_, rest) => Done(Boolean(tag.name == TRUE), rest)
    else if tag.name == STRING && tag.selfClosing then Done(Str([]), s)
    else if tag.name == DATA && tag.selfClosing then Done(Data([]), s)
    else if tag.name in {STRING, INTEGER, REAL, DATA} then
      match Element(s, tag.name)
      case Failed(at) => Failed(at)
      case Done(text, rest) =>
        if tag.name == STRING then Done(Str(text), rest)
        else if tag.name == INTEGER then Done(Integer(Strtoll(text)), rest)
        else if tag.name == REAL then Done(Real(text), rest)
        else
          match DecodeLoop(text, 0, 0)
          case None => Failed(rest)
          case Some(bytes) => Done(Data(bytes), rest)
    else Failed(s)
  }

  /** parse_after_tag. */
  function ParseAfterTag(tag: Tag, s: seq<Byte>): (r: Read<Value>)
    ensures r.Done? ==> |r.rest| <= |s|
    decreases |s|, 2
  {
    if tag.name == DICT then if tag.selfClosing then Done(Dict([]), s) else ParseDict(s, [])
    else if tag.name == ARRAY then if tag.selfClosing then Done(Array([]), s) else ParseArray(s, [])
    else ParseLeaf(tag, s)
  }

  /** The loop over <key> and value of a dictionary. */
  function ParseDict(s: seq<Byte>, items: seq<Item>): (r: Read<Value>)
    ensures r.Done? ==> |r.rest| <= |s|
    decreases |s|, 1
  {
    match ReadTag(s)
    case Failed(at) => Failed(at)
    case Done(next, s1) =>
      if next.closing && next.name == DICT then Done(Dict(items), s1)
      else if next.name != KEY || next.closing then Failed(s1)
      else
        match Element(s1, KEY)
        case Failed(at) => Failed(at)
        case Done(key, s2) =>
          match ParseValue(s2)
          case Failed(at) => Failed(at)
          case Done(value, s3) => ParseDict(s3, items + [Item(key, value)])
  }

  /** The loop over the elements of an array; it rewinds to before a tag that is not the closing one. */
  function ParseArray(s: seq<Byte>, elems: seq<Value>): (r: Read<Value>)
    ensures r.Done? ==> |r.rest| <= |s|
    decreases |s|, 1
  {
    match SkipNoise(s)
    case Failed(at) => Failed(at)
    case Done(_, save) =>
      match ReadTag(save)
      case Failed(at) => Failed(at)
      case Done(next, s1) =>
        if next.closing && next.name == ARRAY then Done(Array(elems), s1)
        else
          match ParseValue(save)
          case Failed(at) => Failed(at)
          case Done(value, rest) => ParseArray(rest, elems + [value])
  }

  /** parse_value. */
  function ParseValue(s: seq<Byte>): (r: Read<Value>)
    ensures r.Done? ==> |r.rest| < |s|
    decreases |s|, 0
  {
    match ReadTag(s)
    case Failed(at) => Failed(at)
    case Done(tag, s1) => if tag.closing then Failed(s1) else ParseAfterTag(tag, s1)
  }

  /** plist_parse_string: the <plist> wrapper is optional, and what follows the value is not read. */
  function ParseString(s: seq<Byte>): (r: Read<Value>)
    ensures r.Done? ==> |r.rest| <= |s|
  {
    match ReadTag(s)
    case Failed(at) => Failed(at)
    case Done(tag, s1) =>
      if tag.name == PLIST && !tag.closing then
        match ParseValue(s1)
        case Failed(at) => Failed(at)
        case Done(root, s2) =>
          match ExpectClose(s2, PLIST)
          case Failed(at) => Failed(at)
          case Done(_, rest) => Done(root, rest)
      else ParseAfterTag(tag, s1)
  }
}
