/**
 * The <data> decoder of the property list reader against the encoding of
 * section 4 of RFC 4648.
 */
module PlistBase64 {
  import opened Common

  /** isspace in the C locale. */
  predicate IsSpace(c: Byte) {
    c == 0x20 || 9 <= c <= 13
  }

  const PAD: Byte := 61        // '='

  // ------------------------------------------------------------- the encoding

  type Sextet = v: int | 0 <= v < 64

  /** Table 1 of RFC 4648. */
  function Letter(v: Sextet): (c: Byte)
    ensures !IsSpace(c) && c != PAD && c != 0 && c != 0x3C && c != 0x26
  {
    if v < 26 then 65 + v
    else if v < 52 then 97 + (v - 26)
    else if v < 62 then 48 + (v - 52)
    else if v == 62 then 43
    else 47
  }

  function Encode(b: seq<Byte>): seq<Byte> {
    if |b| == 0 then []
    else if |b| == 1 then [Letter(b[0] / 4), Letter(b[0] % 4 * 16), PAD, PAD]
    else if |b| == 2 then [Letter(b[0] / 4), Letter(b[0] % 4 * 16 + b[1] / 16), Letter(b[1] % 16 * 4), PAD]
    else
      [Letter(b[0] / 4), Letter(b[0] % 4 * 16 + b[1] / 16), Letter(b[1] % 16 * 4 + b[2] / 64), Letter(b[2] % 64)]
      + Encode(b[3..])
  }

  // -------------------------------------------------------------- the decoder

  /** memchr in the alphabet. */
  function Position(c: Byte): (v: Option<Sextet>)
    ensures v.Some? ==> Letter(v.value) == c
  {
    if 65 <= c <= 90 then Some(c - 65)
    else if 97 <= c <= 122 then Some(c - 97 + 26)
    else if 48 <= c <= 57 then Some(c - 48 + 52)
    else if c == 43 then Some(62)
    else if c == 47 then Some(63)
    else None
  }

  function Prepend(b: Byte, r: Option<seq<Byte>>): Option<seq<Byte>> {
    if r.Some? then Some([b] + r.value) else None
  }

  function Power(bits: nat): nat
    requires bits in {0, 2, 4, 6}
  {
    if bits == 0 then 1 else if bits == 2 then 4 else if bits == 4 then 16 else 64
  }

  /** base64_decode's loop, with its 32-bit accumulator. */
  function DecodeLoop(s: seq<Byte>, acc: nat, bits: nat): Option<seq<Byte>>
    requires bits in {0, 2, 4, 6}
  {
    if s == [] || s[0] == PAD then Some([])
    else if IsSpace(s[0]) then DecodeLoop(s[1..], acc, bits)
    else if Position(s[0]) == None then None
    else
      var acc' := (acc * 64 + Position(s[0]).value) % TWO_32;
      if bits < 2 then DecodeLoop(s[1..], acc', bits + 6)
      else Prepend(acc' / Power(bits - 2) % 256, DecodeLoop(s[1..], acc', bits - 2))
  }

  /** The same with only the pending bits, and no wrap-around. */
  function DecodeBits(s: seq<Byte>, pending: nat, bits: nat): Option<seq<Byte>>
    requires bits in {0, 2, 4, 6} && pending < Power(bits)
  {
    if s == [] || s[0] == PAD then Some([])
    else if IsSpace(s[0]) then DecodeBits(s[1..], pending, bits)
    else if Position(s[0]) == None then None
    else
      var all := pending * 64 + Position(s[0]).value;
      if bits < 2 then DecodeBits(s[1..], all, bits + 6)
      else Prepend(all / Power(bits - 2), DecodeBits(s[1..], all % Power(bits - 2), bits - 2))
  }

  lemma Low256(z: int, y: nat)
    requires y < 256
    ensures (256 * z + y) % 256 == y
  {
  }

  lemma Low4(z: int, y: nat)
    requires y < 1024
    ensures (1024 * z + y) / 4 % 256 == y / 4 && (1024 * z + y) % 4 == y % 4
  {
    assert (1024 * z + y) / 4 == 256 * z + y / 4;
    Low256(z, y / 4);
  }

  lemma Low16(z: int, y: nat)
    requires y < 4096
    ensures (4096 * z + y) / 16 % 256 == y / 16 && (4096 * z + y) % 16 == y % 16
  {
    assert (4096 * z + y) / 16 == 256 * z + y / 16;
    Low256(z, y / 16);
  }

  lemma Wrap0(acc: nat, v: nat, k: int)
    requires v < 64
    ensures (64 * acc + v - TWO_32 * k) % 64 == v
  {
    assert 64 * acc + v - TWO_32 * k == 64 * (acc - 0x400_0000 * k) + v;
  }

  lemma Wrap2(acc: nat, v: nat, k: int)
    requires v < 64
    ensures (64 * acc + v - TWO_32 * k) % 256 == acc % 4 * 64 + v
  {
    assert 64 * acc + v - TWO_32 * k == 256 * (acc / 4 - 0x100_0000 * k) + (acc % 4 * 64 + v);
    Low256(acc / 4 - 0x100_0000 * k, acc % 4 * 64 + v);
  }

  lemma Wrap4(acc: nat, v: nat, k: int)
    requires v < 64
    ensures var x, all := 64 * acc + v - TWO_32 * k, acc % 16 * 64 + v; x / 4 % 256 == all / 4 && x % 4 == all % 4
  {
    assert 64 * acc + v - TWO_32 * k == 1024 * (acc / 16 - 0x40_0000 * k) + (acc % 16 * 64 + v);
    Low4(acc / 16 - 0x40_0000 * k, acc % 16 * 64 + v);
  }

  lemma Wrap6(acc: nat, v: nat, k: int)
    requires v < 64
    ensures var x, all := 64 * acc + v - TWO_32 * k, acc % 64 * 64 + v; x / 16 % 256 == all / 16 && x % 16 == all % 16
  {
    assert 64 * acc + v - TWO_32 * k == 4096 * (acc / 64 - 0x10_0000 * k) + (acc % 64 * 64 + v);
    Low16(acc / 64 - 0x10_0000 * k, acc % 64 * 64 + v);
  }

  /** Only the pending bits of the accumulator matter, and they survive its wrap-around. */
  lemma WrapIsHarmless(acc: nat, v: nat, bits: nat)
    requires bits in {0, 2, 4, 6} && v < 64
    ensures var acc' := (acc * 64 + v) % TWO_32;
      var all := acc % Power(bits) * 64 + v;
      if bits < 2 then acc' % 64 == all
      else acc' / Power(bits - 2) % 256 == all / Power(bits - 2) && acc' % Power(bits - 2) == all % Power(bits - 2)
  {
    var k := (acc * 64 + v) / TWO_32;
    Wrap0(acc, v, k);
    Wrap2(acc, v, k);
    Wrap4(acc, v, k);
    Wrap6(acc, v, k);
  }

  lemma {:induction false} LoopIsBits(s: seq<Byte>, acc: nat, bits: nat)
    requires bits in {0, 2, 4, 6}
    ensures DecodeLoop(s, acc, bits) == DecodeBits(s, acc % Power(bits), bits)
  {
    if s == [] || s[0] == PAD {
    } else if IsSpace(s[0]) {
      LoopIsBits(s[1..], acc, bits);
    } else if Position(s[0]).Some? {
      var acc' := (acc * 64 + Position(s[0]).value) % TWO_32;
      WrapIsHarmless(acc, Position(s[0]).value, bits);
      LoopIsBits(s[1..], acc', if bits < 2 then bits + 6 else bits - 2);
    }
  }

  // ------------------------------------------------------------- round trip

  /** The text without its whitespace. */
  function Strip(s: seq<Byte>): seq<Byte> {
    if s == [] then [] else (if IsSpace(s[0]) then [] else [s[0]]) + Strip(s[1..])
  }

  lemma {:induction false} SpacesDoNotMatter(s: seq<Byte>, pending: nat, bits: nat)
    requires bits in {0, 2, 4, 6} && pending < Power(bits)
    ensures DecodeBits(s, pending, bits) == DecodeBits(Strip(s), pending, bits)
  {
    if s == [] {
    } else if IsSpace(s[0]) {
      assert Strip(s) == Strip(s[1..]);
      SpacesDoNotMatter(s[1..], pending, bits);
    } else {
      assert Strip(s)[1..] == Strip(s[1..]);
      if s[0] != PAD && Position(s[0]).Some? {
        var all := pending * 64 + Position(s[0]).value;
        if bits < 2 {
          SpacesDoNotMatter(s[1..], all, bits + 6);
        } else {
          SpacesDoNotMatter(s[1..], all % Power(bits - 2), bits - 2);
        }
      }
    }
  }

  lemma LetterPosition(v: Sextet)
    ensures Position(Letter(v)) == Some(v)
  {
  }

  /** One step of the decoder on a letter. */
  lemma Step(v: Sextet, rest: seq<Byte>, pending: nat, bits: nat)
    requires bits in {0, 2, 4, 6} && pending < Power(bits)
    ensures DecodeBits([Letter(v)] + rest, pending, bits) ==
      var all := pending * 64 + v;
      if bits < 2 then DecodeBits(rest, all, bits + 6)
      else Prepend(all / Power(bits - 2), DecodeBits(rest, all % Power(bits - 2), bits - 2))
  {
    LetterPosition(v);
    assert ([Letter(v)] + rest)[1..] == rest;
  }

  lemma Regroup(b0: Byte, b1: Byte, b2: Byte)
    ensures (b0 / 4 * 64 + (b0 % 4 * 16 + b1 / 16)) / 16 == b0
    ensures (b0 / 4 * 64 + (b0 % 4 * 16 + b1 / 16)) % 16 == b1 / 16
    ensures (b1 / 16 * 64 + (b1 % 16 * 4 + b2 / 64)) / 4 == b1
    ensures (b1 / 16 * 64 + (b1 % 16 * 4 + b2 / 64)) % 4 == b2 / 64
    ensures b2 / 64 * 64 + b2 % 64 == b2
  {
  }

  lemma FirstTwo(b0: Byte, b1: Byte, rest: seq<Byte>)
    ensures DecodeBits([Letter(b0 / 4)] + ([Letter(b0 % 4 * 16 + b1 / 16)] + rest), 0, 0)
            == Prepend(b0, DecodeBits(rest, b1 / 16, 4))
  {
    hide Letter, Position, DecodeBits;
    Regroup(b0, b1, 0);
    Step(b0 / 4, [Letter(b0 % 4 * 16 + b1 / 16)] + rest, 0, 0);
    Step(b0 % 4 * 16 + b1 / 16, rest, b0 / 4, 6);
  }

  lemma LastTwo(b1: Byte, b2: Byte, rest: seq<Byte>)
    ensures DecodeBits([Letter(b1 % 16 * 4 + b2 / 64)] + rest, b1 / 16, 4) == Prepend(b1, DecodeBits(rest, b2 / 64, 2))
    ensures DecodeBits([Letter(b2 % 64)] + rest, b2 / 64, 2) == Prepend(b2, DecodeBits(rest, 0, 0))
  {
    hide Letter, Position, DecodeBits;
    Regroup(0, b1, b2);
    Step(b1 % 16 * 4 + b2 / 64, rest, b1 / 16, 4);
    Step(b2 % 64, rest, b2 / 64, 2);
  }

  /** The letters of a group give its bytes. */
  lemma DecodeGroup(b0: Byte, b1: Byte, b2: Byte, rest: seq<Byte>)
    ensures DecodeBits([Letter(b0 / 4)] + ([Letter(b0 % 4 * 16 + b1 / 16)] + rest), 0, 0)
            == Prepend(b0, DecodeBits(rest, b1 / 16, 4))
    ensures DecodeBits([Letter(b1 % 16 * 4 + b2 / 64)] + rest, b1 / 16, 4) == Prepend(b1, DecodeBits(rest, b2 / 64, 2))
    ensures DecodeBits([Letter(b2 % 64)] + rest, b2 / 64, 2) == Prepend(b2, DecodeBits(rest, 0, 0))
  {
    hide Letter, DecodeBits, Prepend;
    FirstTwo(b0, b1, rest);
    LastTwo(b1, b2, rest);
  }

  lemma Padding(pending: nat, bits: nat)
    requires bits in {0, 2, 4, 6} && pending < Power(bits)
    ensures DecodeBits([PAD, PAD], pending, bits) == DecodeBits([PAD], pending, bits) == Some([])
  {
  }

  lemma EncodeOne(b0: Byte)
    ensures Encode([b0]) == [Letter(b0 / 4)] + ([Letter(b0 % 4 * 16 + 0 / 16)] + [PAD, PAD])
  {
  }

  lemma EncodeTwo(b0: Byte, b1: Byte)
    ensures Encode([b0, b1]) ==
      [Letter(b0 / 4)] + ([Letter(b0 % 4 * 16 + b1 / 16)] + ([Letter(b1 % 16 * 4 + 0 / 64)] + [PAD]))
  {
  }

  lemma EncodeThree(b0: Byte, b1: Byte, b2: Byte, rest: seq<Byte>)
    ensures Encode([b0, b1, b2] + rest) ==
      [Letter(b0 / 4)] + ([Letter(b0 % 4 * 16 + b1 / 16)] + ([Letter(b1 % 16 * 4 + b2 / 64)] +
        ([Letter(b2 % 64)] + Encode(rest))))
  {
    var b := [b0, b1, b2] + rest;
    assert b[3..] == rest;
  }

  lemma {:induction false} BitsDecodeEncoding(b: seq<Byte>)
    ensures DecodeBits(Encode(b), 0, 0) == Some(b)
  {
    hide DecodeBits, Letter, Position, Encode;
    Padding(0, 4);
    Padding(0, 2);
    if |b| == 0 {
      DecodeNothing();
    } else if |b| == 1 {
      assert b == [b[0]];
      EncodeOne(b[0]);
      DecodeGroup(b[0], 0, 0, [PAD, PAD]);
      assert [b[0]] + [] == b;
    } else if |b| == 2 {
      assert b == [b[0], b[1]] == [b[0]] + [b[1]];
      EncodeTwo(b[0], b[1]);
      DecodeGroup(b[0], b[1], 0, [Letter(b[1] % 16 * 4 + 0 / 64)] + [PAD]);
      DecodeGroup(b[0], b[1], 0, [PAD]);
      assert [b[0]] + ([b[1]] + []) == b;
    } else {
      var rest := b[3..];
      BitsDecodeEncoding(rest);
      Three(b[0], b[1], b[2], rest);
      assert b == [b[0], b[1], b[2]] + rest;
    }
  }

  lemma DecodeNothing()
    ensures Encode([]) == [] && DecodeBits([], 0, 0) == Some([])
  {
  }

  lemma Three(b0: Byte, b1: Byte, b2: Byte, rest: seq<Byte>)
    requires DecodeBits(Encode(rest), 0, 0) == Some(rest)
    ensures DecodeBits(Encode([b0, b1, b2] + rest), 0, 0) == Some([b0, b1, b2] + rest)
  {
    hide DecodeBits, Letter, Position, Encode;
    EncodeThree(b0, b1, b2, rest);
    var fourth := [Letter(b2 % 64)] + Encode(rest);
    DecodeGroup(b0, b1, b2, [Letter(b1 % 16 * 4 + b2 / 64)] + fourth);
    DecodeGroup(b0, b1, b2, fourth);
    DecodeGroup(b0, b1, b2, Encode(rest));
    assert [b0] + ([b1] + ([b2] + rest)) == [b0, b1, b2] + rest;
  }

  /** The decoder inverts the encoding, with whitespace anywhere, although its accumulator wraps. */
  lemma DecodeInvertsEncode(b: seq<Byte>, text: seq<Byte>)
    requires Strip(text) == Encode(b)
    ensures DecodeLoop(text, 0, 0) == Some(b)
  {
    LoopIsBits(text, 0, 0);
    SpacesDoNotMatter(text, 0, 0);
    BitsDecodeEncoding(b);
  }

  // ---------------------------------------------------------------- in place

  function After(done: seq<Byte>, r: Option<seq<Byte>>): Option<seq<Byte>> {
    if r.Some? then Some(done + r.value) else None
  }

  lemma AfterOneMore(done: seq<Byte>, b: Byte, r: Option<seq<Byte>>)
    ensures After(done, Prepend(b, r)) == After(done + [b], r)
  {
    if r.Some? {
      assert done + ([b] + r.value) == done + [b] + r.value;
    }
  }

  lemma AfterNothing(done: seq<Byte>, r: Option<seq<Byte>>)
    ensures After([], r) == r && After(done, Some([])) == Some(done)
  {
    assert done + [] == done;
    if r.Some? {
      assert [] + r.value == r.value;
    }
  }

  /** base64_decode: every write stays inside its buffer of in_len / 4 * 3 + 4 bytes. */
  method Base64Decode(text: seq<Byte>) returns (out: Option<seq<Byte>>)
    ensures out == DecodeLoop(text, 0, 0)
  {
    hide After, Prepend;
    var buf := new Byte[|text| / 4 * 3 + 4];
    var n, acc, bits, i := 0, 0, 0, 0;
    assert text[0..] == text && buf[..0] == [];
    AfterNothing([], DecodeLoop(text, 0, 0));
    while i < |text|
      invariant i <= |text| && bits in {0, 2, 4, 6} && 0 <= acc
      invariant 0 <= n && 8 * n + bits <= 6 * i
      invariant n <= buf.Length
      invariant DecodeLoop(text, 0, 0) == After(buf[..n], DecodeLoop(text[i..], acc, bits))
    {
      var c := text[i];
      assert text[i..][1..] == text[i + 1..] && text[i..][0] == c;
      ghost var done := buf[..n];
      if c == PAD {
        AfterNothing(done, None);
        return Some(buf[..n]);
      }
      i := i + 1;
      if !IsSpace(c) {
        var pos := Position(c);
        if pos == None {
          AfterNone(done);
          return None;
        }
        acc := (acc * 64 + pos.value) % TWO_32;
        bits := bits + 6;
        if bits >= 8 {
          bits := bits - 8;
          AfterOneMore(done, acc / Power(bits) % 256, DecodeLoop(text[i..], acc, bits));
          buf[n] := acc / Power(bits) % 256;
          n := n + 1;
          assert buf[..n] == done + [acc / Power(bits) % 256];
        }
      }
    }
    AfterNothing(buf[..n], None);
    out := Some(buf[..n]);
  }

  lemma AfterNone(done: seq<Byte>)
    ensures After(done, None) == None
  {
  }
}
