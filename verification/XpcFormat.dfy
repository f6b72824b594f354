/**
 * The wire format byte by byte, and that exactly the buffers of that form are
 * accepted, as exactly what their bytes say.
 */
module XpcFormat {
  import opened Common
  import opened XpcWire
  import opened XpcRoundTrip

  /** Little-endian numbers in place. */
  function Le16(p: seq<Byte>, o: nat): int
    requires o + 2 <= |p|
  {
    (p[o] as int) + 0x100 * (p[o + 1] as int)
  }

  function Le32(p: seq<Byte>, o: nat): int
    requires o + 4 <= |p|
  {
    Le16(p, o) + 0x1_0000 * Le16(p, o + 2)
  }

  function Le64(p: seq<Byte>, o: nat): int
    requires o + 8 <= |p|
  {
    Le32(p, o) + 0x1_0000_0000 * Le32(p, o + 4)
  }

  /** The key is what stands in its field up to the first NUL. */
  predicate KeyOf(field: seq<Byte>, key: seq<Byte>) {
    key <= field && 0 !in key && (|key| < |field| ==> field[|key|] == 0)
  }

  /** A value of type code t from v to end. */
  predicate ValueAt(p: seq<Byte>, t: int, v: nat, end: nat, value: Value) {
    match value
    case Bool(b) => t == 1 && v + 1 == end <= |p| && (b <==> p[v] != 0)
    case Int64(i) =>
      t == 2 && v + 8 == end <= |p| &&
      i == Le64(p, v) - if Le64(p, v) >= 0x8000_0000_0000_0000 then 0x1_0000_0000_0000_0000 else 0
    case Uint64(u) => t == 3 && v + 8 == end <= |p| && u == Le64(p, v)
    case Double(bits) => t == 4 && v + 8 == end <= |p| && bits == Le64(p, v)
    case Str(text) =>
      t == 5 && v + 4 <= end <= |p| && end - v - 4 == Le32(p, v) <= 0x10_0000 && text == p[v + 4..end]
    case Data(bytes) =>
      t == 6 && v + 4 <= end <= |p| && end - v - 4 == Le32(p, v) <= 0x10_0000 && bytes == p[v + 4..end]
  }

  /** An entry from off to end: key length, key, type code, value; only strings and data may have an empty key. */
  predicate EntryAt(p: seq<Byte>, off: nat, end: nat, e: Entry) {
    && off + 2 <= |p|
    && var klen := Le16(p, off);
       && klen > 0 && off + 2 + klen + 1 <= |p|
       && KeyOf(p[off + 2..off + 2 + klen], e.key)
       && ValueAt(p, p[off + 2 + klen], off + 3 + klen, end, e.value)
       && (e.key == [] ==> e.value.Str? || e.value.Data?)
  }

  /** So many entries one after the other; anything may follow the last. */
  predicate EntriesAt(p: seq<Byte>, off: nat, raw: seq<Entry>)
    decreases |raw|
  {
    raw == [] ||
    exists end :: off < end <= |p| && EntryAt(p, off, end, raw[0]) && EntriesAt(p, end, raw[1..])
  }

  /** The buffer is a frame of this message, by the letter. */
  ghost predicate IsFrameOf(buf: seq<Byte>, m: Message) {
    && |buf| >= 24
    && buf[0] == 0x43 && buf[1] == 0x58 && buf[2] == 0x50 && buf[3] == 0x31
    && 24 + Le32(buf, 4) <= |buf|
    && m.id == Le64(buf, 8)
    && (m.isReply <==> buf[16] % 2 == 1)
    && exists raw ::
         |raw| == Le32(buf, 20) && EntriesAt(buf[24..24 + Le32(buf, 4)], 0, raw) && m.entries == SetAll([], raw)
  }

  // ------------------------------------------------------------ the readers

  lemma GetTwo(b: seq<Byte>)
    requires |b| == 2
    ensures Get(b) == Le16(b, 0)
  {
    assert Get(b[1..][1..]) == 0;
    assert Get(b[1..]) == b[1] + 256 * Get(b[1..][1..]);
  }

  lemma GetMore(b: seq<Byte>)
    requires |b| >= 2
    ensures Get(b) == Le16(b, 0) + 0x1_0000 * Get(b[2..])
  {
    assert b[1..][1..] == b[2..];
    assert Get(b[1..]) == b[1] + 256 * Get(b[1..][1..]);
    assert Get(b) == b[0] + 256 * Get(b[1..]);
  }

  lemma GetFour(b: seq<Byte>)
    requires |b| == 4
    ensures Get(b) == Le32(b, 0)
  {
    GetMore(b);
    GetTwo(b[2..]);
  }

  lemma GetEight(b: seq<Byte>)
    requires |b| == 8
    ensures Get(b) == Le64(b, 0)
  {
    hide Get;
    GetMore(b);
    GetMore(b[2..]);
    assert b[2..][2..] == b[4..];
    GetFour(b[4..]);
  }

  /** The readers of the format read little-endian numbers. */
  lemma GetIs(p: seq<Byte>, o: nat)
    ensures o + 2 <= |p| ==> Get(p[o..o + 2]) == Le16(p, o)
    ensures o + 4 <= |p| ==> Get(p[o..o + 4]) == Le32(p, o)
    ensures o + 8 <= |p| ==> Get(p[o..o + 8]) == Le64(p, o)
  {
    hide Get;
    if o + 2 <= |p| {
      GetTwo(p[o..o + 2]);
    }
    if o + 4 <= |p| {
      GetFour(p[o..o + 4]);
    }
    if o + 8 <= |p| {
      GetEight(p[o..o + 8]);
    }
  }

  lemma {:induction false} KeyIsCString(field: seq<Byte>, key: seq<Byte>)
    ensures KeyOf(field, key) <==> key == CString(field)
  {
    if field != [] && field[0] != 0 {
      if key != [] {
        KeyIsCString(field[1..], key[1..]);
        assert KeyOf(field, key) <==> key[0] == field[0] && KeyOf(field[1..], key[1..]) by {
          KeyTail(field, key);
        }
        assert key == [key[0]] + key[1..];
      }
    } else if field != [] && key != [] {
      assert key[0] in key;
    }
  }

  lemma KeyTail(field: seq<Byte>, key: seq<Byte>)
    requires field != [] && field[0] != 0 && key != []
    ensures KeyOf(field, key) <==> key[0] == field[0] && KeyOf(field[1..], key[1..])
  {
    assert key == [key[0]] + key[1..] && field == [field[0]] + field[1..];
    assert 0 in key <==> key[0] == 0 || 0 in key[1..];
    if key[0] == field[0] && key[1..] <= field[1..] {
      assert key <= field;
    }
    if key <= field {
      assert key[1..] <= field[1..] by {
        assert forall i :: 0 <= i < |key| - 1 ==> key[1..][i] == key[i + 1] == field[i + 1];
      }
    }
  }

  lemma InPlace(p: seq<Byte>, v: nat, from: nat, to: nat)
    requires v <= |p| && from <= to <= |p| - v
    ensures p[v..][from..to] == p[v + from..v + to]
  {
  }

  lemma ScalarIs(p: seq<Byte>, t: Byte, v: nat, end: nat, value: Value)
    requires v <= |p| && t in {1, 2, 3, 4}
    ensures ValueAt(p, t, v, end, value) <==> end >= v && DecodeValue(t, p[v..]) == Some((value, end - v))
  {
    hide Get;
    Powers();
    if v + 8 <= |p| {
      InPlace(p, v, 0, 8);
      GetIs(p, v);
    }
    hide Le64;
  }

  lemma BytesAre(p: seq<Byte>, t: Byte, v: nat, end: nat, value: Value)
    requires v <= |p| && t in {5, 6}
    ensures ValueAt(p, t, v, end, value) <==> end >= v && DecodeValue(t, p[v..]) == Some((value, end - v))
  {
    hide Get;
    Powers();
    if v + 4 <= |p| {
      InPlace(p, v, 0, 4);
      GetIs(p, v);
      hide Le32;
      var n := Le32(p, v);
      if 0 <= n <= |p| - v - 4 {
        InPlace(p, v, 4, 4 + n);
      }
    }
  }

  /** A value is read exactly where one of that type stands, as that value. */
  lemma ValueIs(p: seq<Byte>, t: Byte, v: nat, end: nat, value: Value)
    requires v <= |p|
    ensures ValueAt(p, t, v, end, value) <==> end >= v && DecodeValue(t, p[v..]) == Some((value, end - v))
  {
    if t in {1, 2, 3, 4} {
      ScalarIs(p, t, v, end, value);
    } else if t in {5, 6} {
      BytesAre(p, t, v, end, value);
    }
  }

  /** An entry is read exactly where one stands, as that entry. */
  lemma EntryIs(p: seq<Byte>, off: nat, end: nat, e: Entry)
    requires off <= |p|
    ensures EntryAt(p, off, end, e) <==> end >= off && DecodeEntry(p[off..]) == Some(Decoded(e, end - off))
  {
    hide Get, DecodeValue, ValueAt, KeyOf, CString;
    Powers();
    if off + 2 <= |p| {
      InPlace(p, off, 0, 2);
      GetIs(p, off);
      hide Le16;
      var klen := Le16(p, off);
      if 0 < klen && off + 2 + klen + 1 <= |p| {
        InPlace(p, off, 2, 2 + klen);
        assert p[off..][2 + klen] == p[off + 2 + klen];
        assert p[off..][3 + klen..] == p[off + 3 + klen..];
        KeyIsCString(p[off + 2..off + 2 + klen], e.key);
        ValueIs(p, p[off + 2 + klen], off + 3 + klen, end, e.value);
        TagIs(p, p[off + 2 + klen], off + 3 + klen, end, e.value);
        TagOf(p[off + 2 + klen], p[off + 3 + klen..]);
      }
    }
  }

  lemma TagIs(p: seq<Byte>, t: Byte, v: nat, end: nat, value: Value)
    ensures ValueAt(p, t, v, end, value) ==> end > v && ((value.Str? || value.Data?) <==> t == 5 || t == 6)
  {
  }

  lemma TagOf(t: Byte, s: seq<Byte>)
    ensures DecodeValue(t, s).Some? ==>
      var value := DecodeValue(t, s).value.0; (value.Str? || value.Data?) <==> t == 5 || t == 6
  {
  }

  // -------------------------------------------------------- whole payloads

  /** So many entries are read exactly where they stand, one after the other. */
  lemma {:induction false} EntriesAre(p: seq<Byte>, off: nat, raw: seq<Entry>)
    requires off <= |p|
    ensures EntriesAt(p, off, raw) <==> RawEntries(p[off..], |raw|) == Some(raw)
    decreases |raw|
  {
    hide DecodeEntry, EntryAt;
    if raw != [] {
      if end :| off < end <= |p| && EntryAt(p, off, end, raw[0]) && EntriesAt(p, end, raw[1..]) {
        EntryIs(p, off, end, raw[0]);
        assert p[off..][end - off..] == p[end..];
        EntriesAre(p, end, raw[1..]);
        assert raw == [raw[0]] + raw[1..];
      }
      if RawEntries(p[off..], |raw|) == Some(raw) {
        var d := DecodeEntry(p[off..]).value;
        var end := off + d.size;
        assert p[off..][d.size..] == p[end..];
        var rest := RawEntries(p[end..], |raw| - 1).value;
        assert raw == [d.entry] + rest && raw[1..] == rest;
        EntryIs(p, off, end, raw[0]);
        EntryMoves(p, off, end, raw[0]);
        EntriesAre(p, end, raw[1..]);
        assert EntriesAt(p, end, raw[1..]);
      }
    }
  }

  lemma EntryMoves(p: seq<Byte>, off: nat, end: nat, e: Entry)
    requires EntryAt(p, off, end, e)
    ensures off < end <= |p|
  {
  }

  lemma {:induction false} RawCount(s: seq<Byte>, count: nat)
    ensures RawEntries(s, count).Some? ==> |RawEntries(s, count).value| == count
    decreases count
  {
    hide DecodeEntry;
    if count > 0 && DecodeEntry(s).Some? {
      RawCount(s[DecodeEntry(s).value.size..], count - 1);
    }
  }

  /** A payload is read as these entries exactly when it consists of entries that leave them. */
  lemma PayloadIs(p: seq<Byte>, count: nat, entries: seq<Entry>)
    ensures DecodeEntries(p, count, []) == Some(entries) <==>
      exists raw :: |raw| == count && EntriesAt(p, 0, raw) && entries == SetAll([], raw)
  {
    hide DecodeEntries, RawEntries, EntriesAt, SetAll;
    DecodeIsSetAll(p, count, []);
    assert p[0..] == p;
    RawCount(p, count);
    if DecodeEntries(p, count, []) == Some(entries) {
      var raw := RawEntries(p, count).value;
      EntriesAre(p, 0, raw);
      assert |raw| == count && EntriesAt(p, 0, raw) && entries == SetAll([], raw);
    }
    if raw :| |raw| == count && EntriesAt(p, 0, raw) && entries == SetAll([], raw) {
      EntriesAre(p, 0, raw);
    }
  }

  // ------------------------------------------------------------ whole buffers

  lemma HeaderIs(buf: seq<Byte>)
    requires |buf| >= 24
    ensures buf[..4] == MAGIC <==> buf[0] == 0x43 && buf[1] == 0x58 && buf[2] == 0x50 && buf[3] == 0x31
    ensures Get(buf[4..8]) == Le32(buf, 4) && Get(buf[8..16]) == Le64(buf, 8) && Get(buf[20..24]) == Le32(buf, 20)
    ensures Get(buf[16..20]) % 2 == buf[16] % 2
  {
    hide Get;
    GetIs(buf, 4);
    GetIs(buf, 8);
    GetIs(buf, 16);
    GetIs(buf, 20);
    assert buf[..4] == [buf[0], buf[1], buf[2], buf[3]];
  }

  /**
   * The deserializer accepts exactly the buffers that start with a frame, by the
   * letter of the format, and reads the message whose frame it is. All others
   * are refused: another magic, less than 24 bytes, less than the declared
   * payload, or an entry with a zero key length, an unknown type code, an empty
   * key of a scalar, a value over 1 MiB or anything that runs over the payload.
   */
  lemma AcceptsExactlyFrames(buf: seq<Byte>, m: Message)
    ensures Deserialize(buf) == Some(m) <==> IsFrameOf(buf, m)
  {
    hide Get, DecodeEntries, EntriesAt, SetAll, Le16, Le32, Le64;
    if |buf| >= 24 {
      HeaderIs(buf);
      if buf[..4] == MAGIC && 24 + Le32(buf, 4) <= |buf| {
        PayloadIs(buf[24..24 + Le32(buf, 4)], Le32(buf, 20), m.entries);
      }
    }
  }

  /** So whatever is written has that form, byte by byte. */
  lemma FramesHaveTheForm(m: Message)
    requires ValidMessage(m) && KeyedEntries(m.entries) && Serialize(m).Some?
    ensures IsFrameOf(Serialize(m).value, m)
  {
    hide Serialize, Deserialize, IsFrameOf;
    FrameRoundTrip(m, []);
    assert Serialize(m).value + [] == Serialize(m).value;
    AcceptsExactlyFrames(Serialize(m).value, m);
  }
}
