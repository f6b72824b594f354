/** The ways to write noise and tags, and that the reader reads each of them back. */
module PlistMarkup {
  import opened Common
  import opened PlistBase64
  import opened PlistText
  import opened PlistSpelling
  import opened PlistGrammar

  // ------------------------------------------------------------------- noise

  datatype Noise = Space(ws: seq<Byte>) | Comment(body: seq<Byte>) | Instruction(body: seq<Byte>)
    | Declaration(body: seq<Byte>)

  /** The end mark occurs nowhere before the end. */
  predicate EndsOnce(body: seq<Byte>, end: seq<Byte>) {
    forall i :: 0 <= i < |body| ==> !StartsWith((body + end)[i..], end)
  }

  /** No '>' outside the brackets of a declaration's body, and the brackets are closed. */
  predicate Bracketed(body: seq<Byte>, depth: int) {
    if body == [] then depth <= 0
    else
      && !(body[0] == GT && depth <= 0)
      && Bracketed(body[1..], if body[0] == 0x5B then depth + 1 else if body[0] == 0x5D then depth - 1 else depth)
  }

  predicate GoodNoise(n: Noise) {
    match n
    case Space(ws) => forall c :: c in ws ==> IsSpace(c)
    case Comment(body) => EndsOnce(body, COMMENT_END)
    case Instruction(body) => (body + INSTRUCTION_END)[0] == 0x3F && EndsOnce([LT] + body, INSTRUCTION_END)
    case Declaration(body) => Bracketed(body, 0) && !StartsWith(body, [0x2D, 0x2D])
  }

  function RenderNoise(n: Noise): seq<Byte> {
    match n
    case Space(ws) => ws
    case Comment(body) => COMMENT + body + COMMENT_END
    case Instruction(body) => [LT] + body + INSTRUCTION_END
    case Declaration(body) => [LT, 0x21] + body + [GT]
  }

  lemma {:induction false} AfterTextFinds(body: seq<Byte>, end: seq<Byte>, rest: seq<Byte>)
    requires end != [] && EndsOnce(body, end)
    ensures AfterText(body + end + rest, end) == Some(rest)
    decreases |body|
  {
    var s := body + end + rest;
    if body == [] {
      assert s == end + rest;
      assert s[..|end|] == end && s[|end|..] == rest;
    } else {
      assert !StartsWith((body + end)[0..], end);
      assert s[..|end|] == (body + end)[..|end|];
      forall i | 0 <= i < |body| - 1
        ensures !StartsWith((body[1..] + end)[i..], end)
      {
        assert (body + end)[i + 1..] == (body[1..] + end)[i..];
      }
      AfterTextFinds(body[1..], end, rest);
      assert s[1..] == body[1..] + end + rest;
    }
  }

  lemma {:induction false} AfterDeclarationFinds(body: seq<Byte>, depth: int, rest: seq<Byte>)
    requires Bracketed(body, depth)
    ensures AfterDeclaration(body + [GT] + rest, depth) == Some(rest)
  {
    var s := body + [GT] + rest;
    if body == [] {
      assert s == [GT] + rest && s[1..] == rest;
    } else {
      AfterDeclarationFinds(body[1..],
        if body[0] == 0x5B then depth + 1 else if body[0] == 0x5D then depth - 1 else depth, rest);
      assert s[1..] == body[1..] + [GT] + rest;
    }
  }

  lemma {:induction false} SkipsSpace(ws: seq<Byte>, rest: seq<Byte>)
    requires forall c :: c in ws ==> IsSpace(c)
    ensures SkipWs(ws + rest) == SkipWs(rest)
  {
    if ws == [] {
      assert ws + rest == rest;
    } else {
      assert IsSpace(ws[0]);
      assert forall c :: c in ws[1..] ==> c in ws;
      SkipsSpace(ws[1..], rest);
      assert (ws + rest)[1..] == ws[1..] + rest;
    }
  }

  lemma SkipsComment(body: seq<Byte>, rest: seq<Byte>)
    requires EndsOnce(body, COMMENT_END)
    ensures Prologue(COMMENT + body + COMMENT_END + rest) == Skipped(rest)
  {
    var s := COMMENT + body + COMMENT_END + rest;
    assert s[..4] == COMMENT && s[4..] == body + COMMENT_END + rest;
    AfterTextFinds(body, COMMENT_END, rest);
  }

  lemma SkipsInstruction(body: seq<Byte>, rest: seq<Byte>)
    requires (body + INSTRUCTION_END)[0] == 0x3F && EndsOnce([LT] + body, INSTRUCTION_END)
    ensures Prologue([LT] + body + INSTRUCTION_END + rest) == Skipped(rest)
  {
    var s := [LT] + body + INSTRUCTION_END + rest;
    assert s == [LT] + ((body + INSTRUCTION_END) + rest);
    assert s[1] == (body + INSTRUCTION_END)[0];
    AfterTextFinds([LT] + body, INSTRUCTION_END, rest);
  }

  lemma NotAComment(body: seq<Byte>, rest: seq<Byte>)
    requires !StartsWith(body, [0x2D, 0x2D])
    ensures !StartsWith([LT, 0x21] + body + [GT] + rest, COMMENT)
  {
    var s := [LT, 0x21] + body + [GT] + rest;
    assert COMMENT[2..] == [0x2D, 0x2D];
    if |s| >= 4 {
      assert s[..4][2..] == s[2..4];
      if |body| >= 2 {
        assert s[2..4] == body[..2];
      } else {
        assert s[2 + |body|] == GT && s[2..4][|body|] == GT;
      }
    }
  }

  lemma SkipsDeclaration(body: seq<Byte>, rest: seq<Byte>)
    requires Bracketed(body, 0) && !StartsWith(body, [0x2D, 0x2D])
    ensures Prologue([LT, 0x21] + body + [GT] + rest) == Skipped(rest)
  {
    var s := [LT, 0x21] + body + [GT] + rest;
    assert s[2..] == body + [GT] + rest;
    NotAComment(body, rest);
    AfterDeclarationFinds(body, 0, rest);
  }

  lemma NoiseIsSkipped(n: Noise, rest: seq<Byte>)
    requires GoodNoise(n)
    ensures SkipNoise(RenderNoise(n) + rest) == SkipNoise(rest)
  {
    hide Prologue, Bracketed, EndsOnce;
    var s := RenderNoise(n) + rest;
    match n {
      case Space(ws) => SkipsSpace(ws, rest);
      case Comment(body) => SkipsComment(body, rest);
      case Instruction(body) => SkipsInstruction(body, rest);
      case Declaration(body) => SkipsDeclaration(body, rest);
    }
    if !n.Space? {
      assert s[0] == LT;
      assert SkipWs(s) == s;
    }
  }

  predicate AllNoise(ns: seq<Noise>) {
    forall n :: n in ns ==> GoodNoise(n)
  }

  function RenderNoises(ns: seq<Noise>): seq<Byte> {
    if ns == [] then [] else RenderNoise(ns[0]) + RenderNoises(ns[1..])
  }

  lemma {:induction false} NoisesAreSkipped(ns: seq<Noise>, rest: seq<Byte>)
    requires AllNoise(ns)
    ensures SkipNoise(RenderNoises(ns) + rest) == SkipNoise(rest)
  {
    hide SkipNoise, RenderNoise, GoodNoise;
    if ns == [] {
      assert RenderNoises(ns) + rest == rest;
    } else {
      assert RenderNoises(ns) + rest == RenderNoise(ns[0]) + (RenderNoises(ns[1..]) + rest);
      NoiseIsSkipped(ns[0], RenderNoises(ns[1..]) + rest);
      NoisesAreSkipped(ns[1..], rest);
    }
  }

  // -------------------------------------------------------------------- tags

  /** A tag as written: noise before it, the name in any case, and anything up to the '>'. */
  datatype Mark = Mark(noise: seq<Noise>, name: seq<Byte>, attrs: seq<Byte>)

  predicate GoodMark(m: Mark) {
    && AllNoise(m.noise)
    && 0 < |m.name| <= NAME_LIMIT && (forall i :: 0 <= i < |m.name| ==> IsNameByte(m.name[i]))
    && GT !in m.attrs && (m.attrs != [] ==> !IsNameByte(m.attrs[0]))
  }

  /** An opening tag must not end in a slash. */
  predicate GoodOpen(m: Mark) {
    GoodMark(m) && (m.attrs != [] ==> m.attrs[|m.attrs| - 1] != SLASH)
  }

  function Body(m: Mark): seq<Byte> {
    m.name + m.attrs + [GT]
  }

  function RenderOpen(m: Mark): seq<Byte> {
    RenderNoises(m.noise) + ([LT] + Body(m))
  }

  function RenderClose(m: Mark): seq<Byte> {
    RenderNoises(m.noise) + ([LT, SLASH] + Body(m))
  }

  function RenderEmpty(m: Mark): seq<Byte> {
    RenderOpen(m.(attrs := m.attrs + [SLASH]))
  }

  lemma {:induction false} NameEnds(name: seq<Byte>, rest: seq<Byte>)
    requires forall i :: 0 <= i < |name| ==> IsNameByte(name[i])
    requires rest != [] && !IsNameByte(rest[0])
    ensures NameLength(name + rest) == |name|
  {
    if name == [] {
      assert name + rest == rest;
    } else {
      assert (name + rest)[1..] == name[1..] + rest;
      NameEnds(name[1..], rest);
    }
  }

  lemma BodyReads(m: Mark, closing: bool, rest: seq<Byte>)
    requires GoodMark(m)
    ensures TagBody(Body(m) + rest, closing) ==
      Done(Tag(LowerAll(m.name), closing, m.attrs != [] && m.attrs[|m.attrs| - 1] == SLASH), rest)
  {
    hide LowerAll, NameLength, Find;
    var tail := m.attrs + [GT] + rest;
    var s := Body(m) + rest;
    assert s == m.name + tail;
    NameEnds(m.name, tail);
    FindAt(m.attrs, GT, rest);
    var n := |m.name|;
    assert s[n..] == tail && s[..n] == m.name && s[n + |m.attrs| + 1..] == rest;
    if m.attrs != [] {
      assert s[n + |m.attrs| - 1] == m.attrs[|m.attrs| - 1];
    }
  }

  lemma NoNoise(c: Byte, s: seq<Byte>)
    requires c != 0x3F && c != 0x21
    ensures SkipNoise([LT, c] + s) == Done((), [LT, c] + s)
  {
    var t := [LT, c] + s;
    assert SkipWs(t) == t;
    if |t| >= 4 {
      assert t[..4][1] == c && COMMENT[1] == 0x21;
    }
  }

  /** An opening (or empty-element) tag is read back with its lower-case name. */
  lemma OpenReads(m: Mark, rest: seq<Byte>)
    requires GoodMark(m)
    ensures ReadTag(RenderOpen(m) + rest) ==
      Done(Tag(LowerAll(m.name), false, m.attrs != [] && m.attrs[|m.attrs| - 1] == SLASH), rest)
  {
    hide SkipNoise, TagBody;
    var s1 := [LT] + Body(m) + rest;
    var c := m.name[0];
    assert s1 == [LT, c] + (Body(m) + rest)[1..];
    NoNoise(c, (Body(m) + rest)[1..]);
    assert RenderOpen(m) + rest == RenderNoises(m.noise) + s1;
    NoisesAreSkipped(m.noise, s1);
    assert s1[1..] == Body(m) + rest && s1[1] == c && IsNameByte(c);
    BodyReads(m, false, rest);
  }

  lemma CloseReads(m: Mark, rest: seq<Byte>)
    requires GoodMark(m)
    ensures ReadTag(RenderClose(m) + rest) ==
      Done(Tag(LowerAll(m.name), true, m.attrs != [] && m.attrs[|m.attrs| - 1] == SLASH), rest)
  {
    hide SkipNoise, TagBody, GoodMark;
    var s1 := [LT, SLASH] + (Body(m) + rest);
    NoNoise(SLASH, Body(m) + rest);
    assert RenderClose(m) + rest == RenderNoises(m.noise) + s1;
    assert SkipNoise(RenderNoises(m.noise) + s1) == SkipNoise(s1) by { NoiseOf(m); NoisesAreSkipped(m.noise, s1); }
    assert s1[2..] == Body(m) + rest;
    BodyReads(m, true, rest);
  }

  lemma NoiseOf(m: Mark)
    requires GoodMark(m)
    ensures AllNoise(m.noise)
  {
  }

  /** A closing tag is accepted for the element whose name it has. */
  lemma CloseExpected(m: Mark, name: seq<Byte>, rest: seq<Byte>)
    requires GoodMark(m) && LowerAll(m.name) == name
    ensures ExpectClose(RenderClose(m) + rest, name) == Done((), rest)
  {
    CloseReads(m, rest);
  }

  /** What follows character data directly: no whitespace, which would belong to the text. */
  predicate GoodAfterText(m: Mark) {
    GoodMark(m) && (m.noise == [] || !m.noise[0].Space?)
  }

  lemma CloseStartsTag(m: Mark, rest: seq<Byte>)
    requires GoodAfterText(m)
    ensures (RenderClose(m) + rest)[0] == LT
  {
    if m.noise != [] {
      assert RenderNoises(m.noise)[0] == RenderNoise(m.noise[0])[0];
    }
  }

  /** Text between its tags is read back. */
  lemma ElementReads(text: seq<Spelling>, close: Mark, name: seq<Byte>, rest: seq<Byte>)
    requires AllGood(text) && GoodAfterText(close) && LowerAll(close.name) == name
    ensures Element(RenderAll(text) + (RenderClose(close) + rest), name) == Done(Content(text), rest)
  {
    hide ReadText, ExpectClose, GoodMark, RenderClose;
    CloseStartsTag(close, rest);
    TextRoundTrip(text, RenderClose(close) + rest);
    CloseExpected(close, name, rest);
    ContentIsNulFree(text);
  }
}
