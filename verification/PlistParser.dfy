/**
 * The reader as it runs: one cursor over the buffer, moved in loops and
 * rewound for array elements, and a failure recorded with its line the first
 * time something does not fit.
 */
module PlistParser {
  import opened Common
  import opened PlistBase64
  import opened PlistText
  import opened PlistGrammar
  import opened PlistCursor

  function Newlines(s: seq<Byte>): nat {
    if s == [] then 0 else Newlines(s[..|s| - 1]) + if s[|s| - 1] == NEWLINE then 1 else 0
  }

  /** That is how many of the bytes are line feeds. */
  lemma {:induction false} NewlinesCounted(s: seq<Byte>)
    ensures Newlines(s) == |set i | 0 <= i < |s| && s[i] == 0x0A|
  {
    if s != [] {
      var n := |s| - 1;
      var init := s[..n];
      NewlinesCounted(init);
      var before, all := set i | 0 <= i < |init| && init[i] == 0x0A, set i | 0 <= i < |s| && s[i] == 0x0A;
      assert all == if s[n] == 0x0A then before + {n} else before;
    }
  }

  /** The line of a place in a buffer, given what is left there. */
  function LineAt(input: seq<Byte>, at: seq<Byte>): nat {
    if |at| <= |input| then 1 + Newlines(input[..|input| - |at|]) else 0
  }

  /** The tree, or NULL. */
  function ValueOf(r: Read<Value>): Option<Value> {
    if r.Done? then Some(r.value) else None
  }

  lemma AtCursor(s: seq<Byte>, p: nat)
    requires p < |s|
    ensures s[p..] != [] && s[p..][0] == s[p] && s[p..][1..] == s[p + 1..]
  {
  }

  lemma {:induction false} AfterTextShort(s: seq<Byte>, t: seq<Byte>)
    requires t != [] && |s| < |t|
    ensures AfterText(s, t) == None
  {
    if s != [] {
      AfterTextShort(s[1..], t);
    }
  }

  lemma NextNameByte(raw: seq<Byte>, c: Byte)
    ensures LowerAll(Cut(raw + [c])) ==
      if |raw| < NAME_LIMIT then LowerAll(Cut(raw)) + [Lower(c)] else LowerAll(Cut(raw))
    ensures |Cut(raw)| < NAME_LIMIT <==> |raw| < NAME_LIMIT
  {
    if |raw| >= NAME_LIMIT {
      assert (raw + [c])[..NAME_LIMIT] == raw[..NAME_LIMIT];
    }
  }

  lemma SliceGrows(s: seq<Byte>, from: nat, p: nat)
    requires from <= p < |s|
    ensures s[from..p] + [s[p]] == s[from..p + 1]
  {
  }

  lemma SliceOfRest(s: seq<Byte>, from: nat, p: nat)
    requires from <= p <= |s|
    ensures s[from..][..p - from] == s[from..p]
  {
  }

  lemma NameGoesOn(s: seq<Byte>)
    requires s != [] && IsNameByte(s[0])
    ensures NameLength(s) == 1 + NameLength(s[1..])
  {
  }

  lemma NameStops(s: seq<Byte>)
    requires s == [] || !IsNameByte(s[0])
    ensures NameLength(s) == 0
  {
  }

  lemma NoName()
    ensures LowerAll(Cut([])) == []
  {
  }

  lemma NameIsEmpty(s: seq<Byte>)
    ensures LowerAll(Cut(s[..NameLength(s)])) == [] <==> NameLength(s) == 0
  {
  }

  lemma PushNothing(r: Read<seq<Byte>>)
    ensures Push([], r) == r
  {
    if r.Done? {
      assert [] + r.value == r.value;
    }
  }

  lemma PushTwice(a: seq<Byte>, b: seq<Byte>, r: Read<seq<Byte>>)
    ensures Push(a, Push(b, r)) == Push(a + b, r)
  {
    if r.Done? {
      assert a + (b + r.value) == a + b + r.value;
    }
  }

  lemma PushAll(a: seq<Byte>, rest: seq<Byte>)
    ensures Push(a, Done([], rest)) == Done(a, rest)
  {
    assert a + [] == a;
  }

  lemma PushFailure(a: seq<Byte>, at: seq<Byte>)
    ensures Push(a, Failed(at)) == Failed(at)
  {
  }

  class Parser {
    const input: seq<Byte>
    var p: nat
    var failed: bool
    var line: nat

    constructor (xml: seq<Byte>)
      ensures input == xml && p == 0 && !failed
    {
      input, p, failed, line := xml, 0, false, 0;
    }

    /** The parser stopped where this reading does, or failed where it fails. */
    ghost predicate Ends<T>(r: Read<T>)
      reads this
    {
      && p <= |input|
      && match r
         case Done(_, rest) => !failed && input[p..] == rest
         case Failed(at) => failed && |at| <= |input| && line == LineAt(input, at)
    }

    /** fail: only the first failure is recorded, with its line. */
    method Fail()
      requires p <= |input|
      modifies `failed, `line
      ensures failed
      ensures line == if old(failed) then old(line) else LineAt(input, input[p..])
    {
      if !failed {
        var n, q := 1, 0;
        while q < p
          invariant q <= p && n == 1 + Newlines(input[..q])
        {
          assert input[..q + 1][..q] == input[..q];
          if input[q] == NEWLINE {
            n := n + 1;
          }
          q := q + 1;
        }
        line := n;
      }
      failed := true;
    }

    /** skip_ws. */
    method SkipWhite()
      requires p <= |input|
      modifies `p
      ensures old(p) <= p <= |input| && input[p..] == SkipWs(old(input[p..]))
    {
      while p < |input| && IsSpace(input[p])
        invariant old(p) <= p <= |input| && SkipWs(input[p..]) == SkipWs(old(input[p..]))
      {
        AtCursor(input, p);
        p := p + 1;
      }
      if p < |input| {
        AtCursor(input, p);
      }
    }

    /** memmem_compat from a place in the buffer: where the needle ends. */
    method MemMem(from: nat, needle: seq<Byte>) returns (end: Option<nat>)
      requires from <= |input| && needle != []
      ensures end.Some? ==> from < end.value <= |input|
      ensures AfterText(input[from..], needle) == if end.Some? then Some(input[end.value..]) else None
    {
      var i := from;
      while i + |needle| <= |input|
        invariant from <= i <= |input|
        invariant AfterText(input[from..], needle) == AfterText(input[i..], needle)
      {
        assert input[i..][..|needle|] == input[i..i + |needle|];
        if input[i..i + |needle|] == needle {
          assert input[i..][|needle|..] == input[i + |needle|..];
          return Some(i + |needle|);
        }
        AtCursor(input, i);
        i := i + 1;
      }
      AfterTextShort(input[i..], needle);
      end := None;
    }

    /** The scan over a <! ... > declaration. */
    method DeclarationEnd(from: nat) returns (end: Option<nat>)
      requires from <= |input|
      ensures end.Some? ==> from < end.value <= |input|
      ensures AfterDeclaration(input[from..], 0) == if end.Some? then Some(input[end.value..]) else None
    {
      var q, depth := from, 0;
      while q < |input|
        invariant from <= q <= |input|
        invariant AfterDeclaration(input[from..], 0) == AfterDeclaration(input[q..], depth)
      {
        AtCursor(input, q);
        if input[q] == 0x5B {
          depth := depth + 1;
        } else if input[q] == 0x5D {
          depth := depth - 1;
        } else if input[q] == GT && depth <= 0 {
          return Some(q + 1);
        }
        q := q + 1;
      }
      end := None;
    }

    /** skip_prologue_at: whether there was noise, terminated or not. */
    method SkipPrologueAt() returns (more: bool)
      requires p <= |input| && !failed
      modifies this
      ensures old(p) <= p <= |input| && more == !Prologue(old(input[p..])).Nothing?
      ensures match Prologue(old(input[p..]))
        case Nothing => p == old(p) && !failed
        case Skipped(rest) => p > old(p) && input[p..] == rest && !failed
        case Unterminated => failed && line == LineAt(input, old(input[p..]))
    {
      var s := input[p..];
      if |input| - p < 2 || input[p] != LT {
        return false;
      }
      var end;
      if input[p + 1] == 0x3F {
        end := MemMem(p, INSTRUCTION_END);
      } else if |input| - p >= 4 && input[p..p + 4] == COMMENT {
        assert s[..4] == input[p..p + 4] && s[4..] == input[p + 4..];
        end := MemMem(p + 4, COMMENT_END);
      } else if input[p + 1] == 0x21 {
        assert |s| >= 4 ==> s[..4] == input[p..p + 4];
        assert s[2..] == input[p + 2..];
        end := DeclarationEnd(p + 2);
      } else {
        assert |s| >= 4 ==> s[..4] == input[p..p + 4];
        return false;
      }
      if end == None {
        Fail();
      } else {
        p := end.value;
      }
      more := true;
    }

    /** skip_noise. */
    method SkipAllNoise()
      requires p <= |input| && !failed
      modifies this
      ensures old(p) <= p <= |input| && Ends(SkipNoise(old(input[p..])))
    {
      hide Prologue;
      while true
        invariant old(p) <= p <= |input| && !failed
        invariant SkipNoise(input[p..]) == SkipNoise(old(input[p..]))
        decreases |input| - p
      {
        SkipWhite();
        var more := SkipPrologueAt();
        if failed {
          SkipWhite();
          return;
        }
        if !more {
          return;
        }
      }
    }

    /** The name of a tag: lower case, cut after 31 bytes. */
    method ReadName() returns (name: seq<Byte>)
      requires p <= |input|
      modifies `p
      ensures p == old(p) + NameLength(old(input[p..])) && p <= |input|
      ensures name == LowerAll(Cut(old(input[p..])[..p - old(p)]))
    {
      hide LowerAll, Cut, NameLength, IsNameByte, Lower;
      ghost var from, raw := p, [];
      name := [];
      NoName();
      while p < |input| && IsNameByte(input[p])
        invariant from <= p <= |input| && NameLength(input[from..]) == p - from + NameLength(input[p..])
        invariant raw == input[from..p] && name == LowerAll(Cut(raw))
      {
        AtCursor(input, p);
        NameGoesOn(input[p..]);
        NextNameByte(raw, input[p]);
        if |name| < NAME_LIMIT {
          name := name + [Lower(input[p])];
        }
        SliceGrows(input, from, p);
        raw := raw + [input[p]];
        p := p + 1;
      }
      if p < |input| {
        AtCursor(input, p);
      }
      NameStops(input[p..]);
      SliceOfRest(input, from, p);
    }

    /** The scan over the attributes, to the '>'. */
    method TagEnd() returns (q: nat, selfClosing: bool)
      requires p <= |input|
      ensures q == p + Find(input[p..], GT) && q <= |input|
      ensures q < |input| ==> (selfClosing <==> q > p && input[q - 1] == SLASH)
    {
      q, selfClosing := p, false;
      while q < |input| && input[q] != GT
        invariant p <= q <= |input| && Find(input[p..], GT) == q - p + Find(input[q..], GT)
        invariant q < |input| && input[q] == GT ==> (selfClosing <==> q > p && input[q - 1] == SLASH)
        invariant q < |input| && input[q] != GT ==> !selfClosing
      {
        AtCursor(input, q);
        if input[q] == SLASH && q + 1 < |input| && input[q + 1] == GT {
          selfClosing := true;
        }
        q := q + 1;
      }
      if q < |input| {
        AtCursor(input, q);
      }
    }

    /** read_tag from the name on. */
    method ReadTagBody(closing: bool) returns (ok: bool, tag: Tag)
      requires p <= |input| && !failed
      modifies this
      ensures p >= old(p) && Ends(TagBody(old(input[p..]), closing))
      ensures ok == TagBody(old(input[p..]), closing).Done?
      ensures ok ==> tag == TagBody(old(input[p..]), closing).value && p > old(p)
    {
      hide LowerAll, Cut, NameLength, Find;
      ghost var s, from := input[p..], p;
      tag := Tag([], closing, false);
      var name := ReadName();
      NameIsEmpty(s);
      ghost var n := p - from;
      assert s[n..] == input[p..];
      if name == [] {
        Fail();
        return false, tag;
      }
      var q, selfClosing := TagEnd();
      if q >= |input| {
        Fail();
        return false, tag;
      }
      assert s[n + (q - p) + 1..] == input[q + 1..];
      assert q > p ==> s[n + (q - p) - 1] == input[q - 1];
      tag := Tag(name, closing, selfClosing);
      p := q + 1;
      ok := true;
    }

    /** read_tag. */
    method ReadTagHere() returns (ok: bool, tag: Tag)
      requires p <= |input| && !failed
      modifies this
      ensures p >= old(p) && Ends(ReadTag(old(input[p..])))
      ensures ok == ReadTag(old(input[p..])).Done?
      ensures ok ==> tag == ReadTag(old(input[p..])).value && p > old(p)
    {
      hide SkipNoise, TagBody;
      ok, tag := false, Tag([], false, false);
      SkipAllNoise();
      if failed {
        return;
      }
      if p >= |input| || input[p] != LT {
        Fail();
        return;
      }
      AtCursor(input, p);
      if p + 1 < |input| && input[p + 1] == SLASH {
        assert input[p..][2..] == input[p + 2..];
        p := p + 2;
        ok, tag := ReadTagBody(true);
      } else {
        p := p + 1;
        ok, tag := ReadTagBody(false);
      }
    }

    /** memchr from the cursor. */
    method MemChr(c: Byte) returns (q: nat)
      requires p <= |input|
      ensures q == p + Find(input[p..], c) && q <= |input|
    {
      q := p;
      while q < |input| && input[q] != c
        invariant p <= q <= |input| && Find(input[p..], c) == q - p + Find(input[q..], c)
      {
        AtCursor(input, q);
        q := q + 1;
      }
      if q < |input| {
        AtCursor(input, q);
      }
    }

    /** The entity reference at the cursor. */
    method ReadReference() returns (data: Option<seq<Byte>>)
      requires p < |input| && input[p] == AMP && !failed
      modifies this
      ensures old(p) <= p <= |input|
      ensures data.Some? ==>
        && !failed && p > old(p)
        && ReadText(old(input[p..])) == Push(data.value, ReadText(input[p..]))
      ensures data == None ==> failed && ReadText(old(input[p..])) == Failed(old(input[p..]))
      ensures data == None ==> line == LineAt(input, old(input[p..]))
    {
      hide Entity, Find, Push;
      AtCursor(input, p);
      ghost var s := input[p..];
      var semi := MemChr(SEMI);
      data := None;
      if semi < |input| {
        assert s[1..semi - p] == input[p + 1..semi];
        assert s[semi - p + 1..] == input[semi + 1..];
        data := Entity(input[p + 1..semi]);
      }
      if data == None {
        Fail();
      } else {
        p := semi + 1;
      }
    }

    /** read_text. */
    method ReadTextHere() returns (text: Option<seq<Byte>>)
      requires p <= |input| && !failed
      modifies this
      ensures p >= old(p) && Ends(ReadText(old(input[p..])))
      ensures text == if ReadText(old(input[p..])).Done? then Some(ReadText(old(input[p..])).value) else None
    {
      hide Entity, Push, Find;
      ghost var s := input[p..];
      var sb: seq<Byte> := [];
      PushNothing(ReadText(s));
      while p < |input| && input[p] != LT
        invariant old(p) <= p <= |input| && !failed
        invariant ReadText(s) == Push(sb, ReadText(input[p..]))
      {
        if input[p] == AMP {
          ghost var here := input[p..];
          var data := ReadReference();
          if data == None {
            PushFailure(sb, here);
            return None;
          }
          PushTwice(sb, data.value, ReadText(input[p..]));
          sb := sb + data.value;
        } else {
          AtCursor(input, p);
          PushTwice(sb, [input[p]], ReadText(input[p + 1..]));
          sb := sb + [input[p]];
          p := p + 1;
        }
      }
      if p < |input| {
        AtCursor(input, p);
      }
      PushAll(sb, input[p..]);
      text := Some(sb);
    }

    /** expect_close. */
    method ExpectCloseHere(name: seq<Byte>) returns (ok: bool)
      requires p <= |input| && !failed
      modifies this
      ensures p >= old(p) && Ends(ExpectClose(old(input[p..]), name))
      ensures ok == ExpectClose(old(input[p..]), name).Done? && (ok ==> p > old(p))
    {
      hide ReadTag;
      var tag;
      ok, tag := ReadTagHere();
      if ok && (!tag.closing || tag.name != name) {
        Fail();
        ok := false;
      }
    }

    /** Text up to its closing tag, as the C string it is kept as. */
    method ElementHere(name: seq<Byte>) returns (text: Option<seq<Byte>>)
      requires p <= |input| && !failed
      modifies this
      ensures p >= old(p) && Ends(Element(old(input[p..]), name))
      ensures text == if Element(old(input[p..]), name).Done? then Some(Element(old(input[p..]), name).value) else None
      ensures text.Some? ==> p > old(p)
    {
      hide ReadText, ExpectClose;
      text := ReadTextHere();
      if text.Some? {
        var ok := ExpectCloseHere(name);
        text := if ok then Some(CString(text.value)) else None;
      }
    }

    /** parse_after_tag, on what is not a dictionary or an array. */
    method ParseLeafHere(tag: Tag) returns (v: Option<Value>)
      requires p <= |input| && !failed
      modifies this
      ensures p >= old(p) && Ends(ParseLeaf(tag, old(input[p..])))
      ensures v == ValueOf(ParseLeaf(tag, old(input[p..])))
    {
      hide Element, ExpectClose, Strtoll, DecodeLoop, Ascii;
      if tag.name == TRUE || tag.name == FALSE {
        if !tag.selfClosing {
          var ok := ExpectCloseHere(tag.name);
          if !ok {
            return None;
          }
        }
        return Some(Boolean(tag.name == TRUE));
      }
      if tag.name == STRING && tag.selfClosing {
        return Some(Str([]));
      }
      if tag.name == DATA && tag.selfClosing {
        return Some(Data([]));
      }
      if tag.name !in {STRING, INTEGER, REAL, DATA} {
        Fail();
        return None;
      }
      var text := ElementHere(tag.name);
      if text == None {
        return None;
      }
      if tag.name == STRING {
        return Some(Str(text.value));
      } else if tag.name == INTEGER {
        return Some(Integer(Strtoll(text.value)));
      } else if tag.name == REAL {
        return Some(Real(text.value));
      }
      var bytes := Base64Decode(text.value);
      if bytes == None {
        Fail();
        return None;
      }
      v := Some(Data(bytes.value));
    }

    /** parse_after_tag. */
    method ParseAfterTagHere(tag: Tag) returns (v: Option<Value>)
      requires p <= |input| && !failed
      modifies this
      ensures p >= old(p) && Ends(ParseAfterTag(tag, old(input[p..])))
      ensures v == ValueOf(ParseAfterTag(tag, old(input[p..])))
      decreases |input| - p, 2
    {
      hide ParseLeaf, ParseDict, ParseArray, Ascii;
      if tag.name == DICT {
        if tag.selfClosing {
          return Some(Dict([]));
        }
        v := ParseDictHere();
      } else if tag.name == ARRAY {
        if tag.selfClosing {
          return Some(Array([]));
        }
        v := ParseArrayHere();
      } else {
        v := ParseLeafHere(tag);
      }
    }

    /** The loop over a dictionary's keys and values. */
    method ParseDictHere() returns (v: Option<Value>)
      requires p <= |input| && !failed
      modifies this
      ensures p >= old(p) && Ends(ParseDict(old(input[p..]), []))
      ensures v == ValueOf(ParseDict(old(input[p..]), []))
      decreases |input| - p, 1
    {
      hide ReadTag, Element, ParseValue, Ascii;
      ghost var s := input[p..];
      var items: seq<Item> := [];
      while true
        invariant old(p) <= p <= |input| && !failed
        invariant ParseDict(s, []) == ParseDict(input[p..], items)
        decreases |input| - p
      {
        var ok, next := ReadTagHere();
        if !ok {
          return None;
        }
        if next.closing && next.name == DICT {
          return Some(Dict(items));
        }
        if next.name != KEY || next.closing {
          Fail();
          return None;
        }
        var key := ElementHere(KEY);
        if key == None {
          return None;
        }
        var child := ParseValueHere();
        if child == None {
          return None;
        }
        items := items + [Item(key.value, child.value)];
      }
    }

    /** The loop over an array's elements, with its rewind. */
    method ParseArrayHere() returns (v: Option<Value>)
      requires p <= |input| && !failed
      modifies this
      ensures p >= old(p) && Ends(ParseArray(old(input[p..]), []))
      ensures v == ValueOf(ParseArray(old(input[p..]), []))
      decreases |input| - p, 1
    {
      hide ReadTag, SkipNoise, ParseValue, Ascii;
      ghost var s := input[p..];
      var elems: seq<Value> := [];
      while true
        invariant old(p) <= p <= |input| && !failed
        invariant ParseArray(s, []) == ParseArray(input[p..], elems)
        decreases |input| - p
      {
        SkipAllNoise();
        if failed {
          return None;
        }
        var save := p;
        var ok, next := ReadTagHere();
        if !ok {
          return None;
        }
        if next.closing && next.name == ARRAY {
          return Some(Array(elems));
        }
        p := save;
        var child := ParseValueHere();
        if child == None {
          return None;
        }
        elems := elems + [child.value];
      }
    }

    /** parse_value. */
    method ParseValueHere() returns (v: Option<Value>)
      requires p <= |input| && !failed
      modifies this
      ensures p >= old(p) && Ends(ParseValue(old(input[p..])))
      ensures v == ValueOf(ParseValue(old(input[p..])))
      ensures v.Some? ==> p > old(p)
      decreases |input| - p, 0
    {
      hide ReadTag, ParseAfterTag;
      var ok, tag := ReadTagHere();
      if !ok {
        return None;
      }
      if tag.closing {
        Fail();
        return None;
      }
      v := ParseAfterTagHere(tag);
    }
  }

  /**
   * plist_parse_string: on every byte string it ends, with the tree, or with
   * NULL and the line of the first place that does not fit: one more than the
   * newlines before it.
   */
  method Parse(xml: seq<Byte>) returns (root: Option<Value>, line: nat)
    ensures root == ValueOf(ParseString(xml))
    ensures root == None ==> Suffix(ParseString(xml).at, xml) && line == LineAt(xml, ParseString(xml).at)
  {
    hide ReadTag, ParseAfterTag, ParseValue, ExpectClose, Ascii;
    ParseStringInside(xml);
    line := 0;
    var ps := new Parser(xml);
    assert xml[0..] == xml;
    var ok, tag := ps.ReadTagHere();
    if !ok {
      return None, ps.line;
    }
    if tag.name == PLIST && !tag.closing {
      root := ps.ParseValueHere();
      if root.Some? {
        ok := ps.ExpectCloseHere(PLIST);
        if !ok {
          root := None;
        }
      }
    } else {
      root := ps.ParseAfterTagHere(tag);
    }
    line := ps.line;
  }
}
