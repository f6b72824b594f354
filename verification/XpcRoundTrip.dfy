/** Serializing and deserializing undo each other, exactly where they do. */
module XpcRoundTrip {
  import opened Common
  import opened XpcWire

  lemma GetPutPrefix(n: nat, k: nat, rest: seq<Byte>)
    requires n < Pow256(k)
    ensures Get((Put(n, k) + rest)[..k]) == n && (Put(n, k) + rest)[k..] == rest
  {
    assert (Put(n, k) + rest)[..k] == Put(n, k);
    GetPut(n, k);
  }

  lemma BytesRoundTrip(tag: Byte, bytes: seq<Byte>, rest: seq<Byte>)
    requires (tag == 5 || tag == 6) && |bytes| <= MAX_MESSAGE
    ensures DecodeValue(tag, Put(|bytes|, 4) + bytes + rest) ==
      Some((if tag == 5 then Str(bytes) else Data(bytes), 4 + |bytes|))
  {
    hide Put, Get;
    Powers();
    var s := Put(|bytes|, 4) + bytes + rest;
    assert s == Put(|bytes|, 4) + (bytes + rest);
    GetPutPrefix(|bytes|, 4, bytes + rest);
    assert s[4..4 + |bytes|] == bytes;
  }

  lemma ScalarRoundTrip(tag: Byte, u: nat, rest: seq<Byte>)
    requires 2 <= tag <= 4 && u < TWO_64
    ensures DecodeValue(tag, Put(u, 8) + rest) ==
      Some((if tag == 2 then Int64(ToSigned(u)) else if tag == 3 then Uint64(u) else Double(u), 8))
  {
    Powers();
    GetPutPrefix(u, 8, rest);
  }

  lemma ValueRoundTrip(v: Value, rest: seq<Byte>)
    requires ValidValue(v)
    ensures DecodeValue(Tag(v), EncodeValue(v) + rest) == Some((v, |EncodeValue(v)|))
  {
    match v
    case Bool(b) =>
    case Int64(i) => ScalarRoundTrip(2, ToUnsigned(i), rest);
    case Uint64(u) => ScalarRoundTrip(3, u, rest);
    case Double(bits) => ScalarRoundTrip(4, bits, rest);
    case Str(text) => BytesRoundTrip(5, text, rest);
    case Data(bytes) => BytesRoundTrip(6, bytes, rest);
  }

  /** An entry reads back as itself, unless its key is empty: then it is refused. */
  lemma EntryRoundTrip(e: Entry, rest: seq<Byte>)
    requires ValidEntry(e)
    ensures DecodeEntry(EncodeEntry(e) + rest) ==
      if e.key == [] then None else Some(Decoded(e, |EncodeEntry(e)|))
    ensures (EncodeEntry(e) + rest)[|EncodeEntry(e)|..] == rest
  {
    hide Put, Get, DecodeValue;
    Powers();
    var s := EncodeEntry(e) + rest;
    var n := |e.key|;
    var value := EncodeValue(e.value);
    var after := e.key + [Tag(e.value)] + value + rest;
    hide EncodeValue;
    assert s == Put(n, 2) + after;
    GetPutPrefix(n, 2, after);
    assert s[2..2 + n] == e.key;
    assert s[2 + n] == Tag(e.value);
    assert s[3 + n..] == value + rest;
    ValueRoundTrip(e.value, rest);
  }

  lemma SetAppends(prefix: seq<Entry>, e: Entry, rest: seq<Entry>)
    requires Distinct(prefix + [e] + rest)
    ensures SetEntry(prefix, e) == prefix + [e]
  {
    var all := prefix + [e] + rest;
    assert forall i :: 0 <= i < |prefix| ==> prefix[i].key == all[i].key != all[|prefix|].key;
  }

  /** Reading back what was written continues the dictionary read so far, or stops at an empty key. */
  lemma {:induction false} EntriesRoundTrip(prefix: seq<Entry>, entries: seq<Entry>, junk: seq<Byte>)
    requires ValidEntries(prefix + entries)
    requires forall i :: 0 <= i < |entries| ==> ValidEntry(entries[i])
    ensures DecodeEntries(EncodeEntries(entries) + junk, |entries|, prefix) ==
      if KeyedEntries(entries) then Some(prefix + entries) else None
    decreases |entries|
  {
    hide DecodeEntry, EncodeEntry;
    if entries == [] {
      assert prefix + entries == prefix;
    } else {
      var e, rest := entries[0], entries[1..];
      var s := EncodeEntries(entries) + junk;
      assert s == EncodeEntry(e) + (EncodeEntries(rest) + junk);
      EntryRoundTrip(e, EncodeEntries(rest) + junk);
      assert prefix + entries == prefix + [e] + rest;
      SetAppends(prefix, e, rest);
      EntriesRoundTrip(prefix + [e], rest, junk);
      assert KeyedEntries(entries) <==> e.key != [] && KeyedEntries(rest) by {
        assert forall i :: 0 <= i < |rest| ==> rest[i] == entries[i + 1];
      }
    }
  }

  lemma HeaderFields(payload: nat, m: Message, rest: seq<Byte>)
    requires payload < TWO_32 && m.id < TWO_64 && |m.entries| < TWO_32
    ensures var buf := Header(payload, m) + rest;
      && |buf| >= HEADER_SIZE && buf[..4] == MAGIC && Get(buf[4..8]) == payload && Get(buf[8..16]) == m.id
      && Get(buf[16..20]) % 2 == (if m.isReply then 1 else 0) && Get(buf[20..24]) == |m.entries|
      && buf[24..] == rest
  {
    Powers();
    var flag := if m.isReply then FLAG_REPLY else 0;
    var buf := Header(payload, m) + rest;
    assert buf[4..8] == Put(payload, 4);
    assert buf[8..16] == Put(m.id, 8);
    assert buf[16..20] == Put(flag, 4);
    assert buf[20..24] == Put(|m.entries|, 4);
    GetPut(payload, 4);
    GetPut(m.id, 8);
    GetPut(flag, 4);
    GetPut(|m.entries|, 4);
  }

  /**
   * A frame reads back, whatever follows it in the buffer, as the message it
   * was made from: same keys in the same order, same types and values bit
   * for bit, same id and reply flag. The one exception is a dictionary with
   * an empty key, which serializes to a frame its reader refuses.
   */
  lemma FrameRoundTrip(m: Message, junk: seq<Byte>)
    requires ValidMessage(m) && Serialize(m).Some?
    ensures Deserialize(Serialize(m).value + junk) == if KeyedEntries(m.entries) then Some(m) else None
    ensures |Serialize(m).value| == HEADER_SIZE + PayloadSize(m.entries)
  {
    hide EncodeEntries, DecodeEntries, Header, KeyedEntries, Get, PayloadSize;
    var payload := PayloadSize(m.entries);
    var body := EncodeEntries(m.entries);
    EncodedSize(m.entries);
    var buf := Serialize(m).value + junk;
    assert buf == Header(payload, m) + (body + junk);
    HeaderFields(payload, m, body + junk);
    assert buf[HEADER_SIZE..HEADER_SIZE + payload] == body + [];
    assert [] + m.entries == m.entries;
    EntriesRoundTrip([], m.entries, []);
  }

  // ---------------------------------------------------------- public setters

  /** A dictionary any sequence of successful public setter and remove calls builds. */
  datatype Edit = SetTo(e: Entry) | Remove(key: seq<Byte>)

  predicate EditAccepted(edit: Edit) {
    match edit
    case SetTo(e) => ValidEntry(e) && e.key != []
    case Remove(_) => true
  }

  function Apply(entries: seq<Entry>, edits: seq<Edit>): seq<Entry>
    decreases |edits|
  {
    if edits == [] then entries
    else
      match edits[0]
      case SetTo(e) => Apply(SetEntry(entries, e), edits[1..])
      case Remove(key) => Apply(RemoveKey(entries, key), edits[1..])
  }

  /** What a dictionary holds under a key. */
  function ValueOf(entries: seq<Entry>, key: seq<Byte>): Option<Value> {
    var i := IndexOf(entries, key);
    if i < |entries| then Some(entries[i].value) else None
  }

  function KeyOf(edit: Edit): seq<Byte> {
    match edit
    case SetTo(e) => e.key
    case Remove(key) => key
  }

  /** The entries with another key, in their order. */
  function OtherThan(entries: seq<Entry>, key: seq<Byte>): seq<Entry> {
    if entries == [] then []
    else if entries[0].key == key then OtherThan(entries[1..], key)
    else [entries[0]] + OtherThan(entries[1..], key)
  }

  lemma {:induction false} AllOther(entries: seq<Entry>, key: seq<Byte>)
    requires forall i :: 0 <= i < |entries| ==> entries[i].key != key
    ensures OtherThan(entries, key) == entries
  {
    if entries != [] {
      AllOther(entries[1..], key);
    }
  }

  /** Removing a key takes out its entry and leaves all others as they are and where they are. */
  lemma {:induction false} RemovesOnly(entries: seq<Entry>, key: seq<Byte>)
    requires Distinct(entries)
    ensures RemoveKey(entries, key) == OtherThan(entries, key)
  {
    if entries != [] {
      var rest := entries[1..];
      if entries[0].key == key {
        AllOther(rest, key);
      } else {
        RemovesOnly(rest, key);
        var i := IndexOf(rest, key);
        if i < |rest| {
          assert entries[..i + 1] + entries[i + 2..] == [entries[0]] + (rest[..i] + rest[i + 1..]);
        }
      }
    }
  }

  /** What an edit leaves under its key. */
  function Given(edit: Edit): Option<Value> {
    match edit
    case SetTo(e) => Some(e.value)
    case Remove(_) => None
  }

  /** Edit i is of this key, and none after it is. */
  predicate LastOf(edits: seq<Edit>, i: nat, key: seq<Byte>)
    requires i < |edits|
  {
    KeyOf(edits[i]) == key && forall j :: i < j < |edits| ==> KeyOf(edits[j]) != key
  }

  lemma Unchanged(was: seq<Entry>, now: seq<Entry>, key: seq<Byte>)
    requires Distinct(was) && Distinct(now)
    requires forall e: Entry :: e.key == key ==> (e in was <==> e in now)
    ensures ValueOf(was, key) == ValueOf(now, key)
  {
    var i, k := IndexOf(was, key), IndexOf(now, key);
    assert i < |was| ==> was[i] in was && was[i] in now;
    assert k < |now| ==> now[k] in now && now[k] in was;
  }

  lemma SetSettles(entries: seq<Entry>, e: Entry, key: seq<Byte>)
    requires Distinct(entries)
    ensures Distinct(SetEntry(entries, e))
    ensures ValueOf(SetEntry(entries, e), key) == if e.key == key then Some(e.value) else ValueOf(entries, key)
  {
    var now := SetEntry(entries, e);
    var i := IndexOf(entries, e.key);
    assert now[i] == e;
    if e.key != key {
      forall x: Entry | x.key == key ensures x in entries <==> x in now {
        if x in entries {
          var k :| 0 <= k < |entries| && entries[k] == x;
          assert now[k] == x;
        }
      }
      Unchanged(entries, now, key);
    }
  }

  lemma RemoveSettles(entries: seq<Entry>, gone: seq<Byte>, key: seq<Byte>)
    requires Distinct(entries)
    ensures Distinct(RemoveKey(entries, gone))
    ensures ValueOf(RemoveKey(entries, gone), key) == if gone == key then None else ValueOf(entries, key)
  {
    var now := RemoveKey(entries, gone);
    var i := IndexOf(entries, gone);
    if gone != key && i < |entries| {
      forall x: Entry | x.key == key ensures x in entries <==> x in now {
        if x in entries {
          var k :| 0 <= k < |entries| && entries[k] == x;
          assert now[if k < i then k else k - 1] == x;
        }
      }
      Unchanged(entries, now, key);
    }
  }

  /** What is found under a key is what the last edit of that key left there, whatever else was edited. */
  lemma {:induction false} LastEditWins(entries: seq<Entry>, edits: seq<Edit>, key: seq<Byte>)
    requires Distinct(entries)
    ensures Distinct(Apply(entries, edits))
    ensures (forall i :: 0 <= i < |edits| ==> KeyOf(edits[i]) != key) ==>
      ValueOf(Apply(entries, edits), key) == ValueOf(entries, key)
    ensures forall i :: 0 <= i < |edits| && LastOf(edits, i, key) ==>
      ValueOf(Apply(entries, edits), key) == Given(edits[i])
    decreases |edits|
  {
    hide ValueOf, SetEntry, RemoveKey;
    if edits != [] {
      var rest := edits[1..];
      var next := match edits[0] case SetTo(e) => SetEntry(entries, e) case Remove(gone) => RemoveKey(entries, gone);
      match edits[0] {
        case SetTo(e) => SetSettles(entries, e, key);
        case Remove(gone) => RemoveSettles(entries, gone, key);
      }
      LastEditWins(next, rest, key);
      assert forall i :: 0 <= i < |rest| ==> rest[i] == edits[i + 1];
      assert forall i :: 0 < i < |edits| ==> edits[i] == rest[i - 1];
    }
  }

  lemma {:induction false} EditedValid(entries: seq<Entry>, edits: seq<Edit>)
    requires ValidEntries(entries) && KeyedEntries(entries)
    requires forall i :: 0 <= i < |edits| ==> EditAccepted(edits[i])
    ensures ValidEntries(Apply(entries, edits)) && KeyedEntries(Apply(entries, edits))
    decreases |edits|
  {
    if edits != [] {
      match edits[0] {
        case SetTo(e) =>
          SetKeepsValid(entries, e);
          EditedValid(SetEntry(entries, e), edits[1..]);
        case Remove(key) =>
          RemoveKeepsValid(entries, key);
          EditedValid(RemoveKey(entries, key), edits[1..]);
      }
    }
  }

  /** Whatever the public interface built round-trips, provided the frame fits in 1 MiB. */
  lemma EditedRoundTrip(edits: seq<Edit>, id: nat, isReply: bool)
    requires forall i :: 0 <= i < |edits| ==> EditAccepted(edits[i])
    requires id < TWO_64 && HEADER_SIZE + PayloadSize(Apply([], edits)) <= MAX_MESSAGE
    ensures var m := Message(Apply([], edits), id, isReply);
      ValidMessage(m) && Serialize(m).Some? && Deserialize(Serialize(m).value) == Some(m)
  {
    hide EncodeEntries, DecodeEntries, PayloadSize, Header, Get, Apply, EditAccepted;
    assert ValidEntries([]) && KeyedEntries([]);
    EditedValid([], edits);
    var m := Message(Apply([], edits), id, isReply);
    FrameRoundTrip(m, []);
    assert Serialize(m).value + [] == Serialize(m).value;
  }

  // ------------------------------------------------------------- re-reading

  /** The entries of an accepted payload one by one, repeated keys included. */
  function RawEntries(s: seq<Byte>, count: nat): Option<seq<Entry>>
    decreases count
  {
    if count == 0 then Some([])
    else
      match DecodeEntry(s)
      case None => None
      case Some(d) =>
        match RawEntries(s[d.size..], count - 1)
        case None => None
        case Some(rest) => Some([d.entry] + rest)
  }

  function SetAll(entries: seq<Entry>, raw: seq<Entry>): seq<Entry>
    decreases |raw|
  {
    if raw == [] then entries else SetAll(SetEntry(entries, raw[0]), raw[1..])
  }

  lemma {:induction false} DecodeIsSetAll(s: seq<Byte>, count: nat, entries: seq<Entry>)
    ensures DecodeEntries(s, count, entries) ==
      match RawEntries(s, count) case None => None case Some(raw) => Some(SetAll(entries, raw))
    decreases count
  {
    hide DecodeEntry, SetEntry;
    if count > 0 {
      match DecodeEntry(s) {
        case None =>
        case Some(d) =>
          DecodeIsSetAll(s[d.size..], count - 1, SetEntry(entries, d.entry));
          match RawEntries(s[d.size..], count - 1) {
            case None =>
            case Some(rest) => assert ([d.entry] + rest)[1..] == rest;
          }
      }
    }
  }

  lemma {:induction false} SizeUpdate(entries: seq<Entry>, i: nat, e: Entry)
    requires i < |entries|
    ensures PayloadSize(entries[i := e]) + EntrySize(entries[i]) == PayloadSize(entries) + EntrySize(e)
  {
    if i == 0 {
      assert entries[0 := e][1..] == entries[1..];
    } else {
      assert entries[i := e][1..] == entries[1..][i - 1 := e];
      SizeUpdate(entries[1..], i - 1, e);
    }
  }

  lemma {:induction false} SizeAppend(entries: seq<Entry>, e: Entry)
    ensures PayloadSize(entries + [e]) == PayloadSize(entries) + EntrySize(e)
  {
    if entries == [] {
      assert [] + [e] == [e];
    } else {
      assert (entries + [e])[1..] == entries[1..] + [e];
      SizeAppend(entries[1..], e);
    }
  }

  lemma SizeSet(entries: seq<Entry>, e: Entry)
    ensures PayloadSize(SetEntry(entries, e)) <= PayloadSize(entries) + EntrySize(e)
  {
    var i := IndexOf(entries, e.key);
    if i < |entries| {
      SizeUpdate(entries, i, e);
    } else {
      SizeAppend(entries, e);
    }
  }

  /** What is read is valid, and no bigger than the payload it came from. */
  lemma {:induction false} DecodedValid(s: seq<Byte>, count: nat, entries: seq<Entry>)
    requires ValidEntries(entries) && DecodeEntries(s, count, entries).Some?
    ensures ValidEntries(DecodeEntries(s, count, entries).value)
    ensures PayloadSize(DecodeEntries(s, count, entries).value) <= PayloadSize(entries) + |s|
    decreases count
  {
    hide DecodeEntry;
    if count > 0 {
      var d := DecodeEntry(s).value;
      SetKeepsValid(entries, d.entry);
      SizeSet(entries, d.entry);
      DecodedValid(s[d.size..], count - 1, SetEntry(entries, d.entry));
    }
  }

  // ----------------------------------------- first position, last value

  predicate HasKey(entries: seq<Entry>, key: seq<Byte>) {
    exists i :: 0 <= i < |entries| && entries[i].key == key
  }

  /** The keys of `raw` in order of first appearance, after those of `seen`. */
  function FirstKeys(seen: seq<seq<Byte>>, raw: seq<Entry>): seq<seq<Byte>>
    decreases |raw|
  {
    if raw == [] then seen
    else if raw[0].key in seen then FirstKeys(seen, raw[1..])
    else FirstKeys(seen + [raw[0].key], raw[1..])
  }

  /** The value of the last entry of `raw` with this key, or of `entries` if there is none. */
  function LastValue(entries: seq<Entry>, raw: seq<Entry>, key: seq<Byte>): Option<Value> {
    if raw != [] && raw[|raw| - 1].key == key then Some(raw[|raw| - 1].value)
    else if raw != [] then LastValue(entries, raw[..|raw| - 1], key)
    else ValueOf(entries, key)
  }

  lemma {:induction false} LastValueFront(entries: seq<Entry>, raw: seq<Entry>, key: seq<Byte>)
    requires Distinct(entries) && raw != []
    ensures LastValue(entries, raw, key) == LastValue(SetEntry(entries, raw[0]), raw[1..], key)
    decreases |raw|
  {
    hide SetEntry, ValueOf;
    var last := raw[|raw| - 1];
    if |raw| == 1 {
      SetSettles(entries, raw[0], key);
      assert raw[..0] == [] && raw[1..] == [];
    } else if last.key != key {
      LastValueFront(entries, raw[..|raw| - 1], key);
      assert raw[1..][..|raw| - 2] == raw[..|raw| - 1][1..];
    }
  }

  /** Each distinct key keeps its first position and its last value. */
  lemma {:induction false} FirstPositionLastValue(entries: seq<Entry>, raw: seq<Entry>, key: seq<Byte>)
    requires Distinct(entries)
    ensures Distinct(SetAll(entries, raw))
    ensures Keys(SetAll(entries, raw)) == FirstKeys(Keys(entries), raw)
    ensures LastValue(SetAll(entries, raw), [], key) == LastValue(entries, raw, key)
    decreases |raw|
  {
    if raw != [] {
      var r := SetEntry(entries, raw[0]);
      SetSettles(entries, raw[0], key);
      LastValueFront(entries, raw, key);
      var i := IndexOf(entries, raw[0].key);
      if i < |entries| {
        assert Keys(entries)[i] == raw[0].key;
        assert Keys(r) == Keys(entries);
      } else {
        assert raw[0].key !in Keys(entries);
        assert Keys(r) == Keys(entries) + [raw[0].key];
      }
      FirstPositionLastValue(r, raw[1..], key);
    }
  }

  /** The same for a whole accepted buffer. */
  lemma AcceptedBuffer(buf: seq<Byte>, key: seq<Byte>)
    requires Deserialize(buf).Some?
    ensures var body := buf[HEADER_SIZE..HEADER_SIZE + Get(buf[4..8])];
      var raw := RawEntries(body, Get(buf[20..24]));
      var m := Deserialize(buf).value;
      && raw.Some?
      && Keys(m.entries) == FirstKeys([], raw.value)
      && LastValue(m.entries, [], key) == LastValue([], raw.value, key)
      && (KeyedEntries(m.entries) <==> KeyedEntries(raw.value))
  {
    hide DecodeEntries, RawEntries, FirstKeys, LastValue, KeyedEntries, Keys, Get;
    var body := buf[HEADER_SIZE..HEADER_SIZE + Get(buf[4..8])];
    var count := Get(buf[20..24]);
    assert DecodeEntries(body, count, []) == Some(Deserialize(buf).value.entries);
    AcceptedEntries(body, count, key);
  }

  lemma AcceptedEntries(body: seq<Byte>, count: nat, key: seq<Byte>)
    requires DecodeEntries(body, count, []).Some?
    ensures var raw := RawEntries(body, count);
      var entries := DecodeEntries(body, count, []).value;
      && raw.Some?
      && Keys(entries) == FirstKeys([], raw.value)
      && LastValue(entries, [], key) == LastValue([], raw.value, key)
      && (KeyedEntries(entries) <==> KeyedEntries(raw.value))
  {
    DecodeIsSetAll(body, count, []);
    hide DecodeEntries, RawEntries;
    var raw, entries := RawEntries(body, count).value, DecodeEntries(body, count, []).value;
    FirstPositionLastValue([], raw, key);
    assert Keys([]) == [];
    FirstKeysMembers([], raw, []);
    hide FirstKeys, LastValue, SetAll;
    assert KeyedEntries(entries) <==> [] !in Keys(entries);
    assert KeyedEntries(raw) <==> !HasKey(raw, []);
  }

  lemma {:induction false} FirstKeysMembers(seen: seq<seq<Byte>>, raw: seq<Entry>, key: seq<Byte>)
    ensures key in FirstKeys(seen, raw) <==> key in seen || HasKey(raw, key)
    decreases |raw|
  {
    if raw != [] {
      var rest := raw[1..];
      assert HasKey(raw, key) <==> raw[0].key == key || HasKey(rest, key) by {
        if HasKey(rest, key) {
          var i :| 0 <= i < |rest| && rest[i].key == key;
          assert raw[i + 1].key == key;
        }
        if HasKey(raw, key) {
          var i :| 0 <= i < |raw| && raw[i].key == key;
          assert i > 0 ==> rest[i - 1].key == key;
        }
      }
      FirstKeysMembers(if raw[0].key in seen then seen else seen + [raw[0].key], rest, key);
    }
  }

  // ---------------------------------------------- what re-reads as itself

  /** The key field of the entry at the front of a payload, as its bytes stand there. */
  function KeyField(s: seq<Byte>): seq<Byte> {
    if |s| < 2 || 2 + Get(s[..2]) > |s| then [] else s[2..2 + Get(s[..2])]
  }

  function KeyFields(s: seq<Byte>, count: nat): seq<seq<Byte>>
    decreases count
  {
    if count == 0 then []
    else
      match DecodeEntry(s)
      case None => []
      case Some(d) => [KeyField(s)] + KeyFields(s[d.size..], count - 1)
  }

  predicate StartsWithNul(field: seq<Byte>) {
    field != [] && field[0] == 0
  }

  predicate NoneStartsWithNul(fields: seq<seq<Byte>>) {
    forall i :: 0 <= i < |fields| ==> !StartsWithNul(fields[i])
  }

  lemma EmptyKey(s: seq<Byte>)
    requires DecodeEntry(s).Some?
    ensures DecodeEntry(s).value.entry.key == [] <==> StartsWithNul(KeyField(s))
  {
    hide DecodeValue;
  }

  lemma {:induction false} EmptyKeys(s: seq<Byte>, count: nat)
    requires RawEntries(s, count).Some?
    ensures KeyedEntries(RawEntries(s, count).value) <==>
      NoneStartsWithNul(KeyFields(s, count))
    decreases count
  {
    hide DecodeEntry, KeyField, StartsWithNul;
    if count > 0 {
      var d := DecodeEntry(s).value;
      EmptyKey(s);
      EmptyKeys(s[d.size..], count - 1);
      OneMoreKey(d.entry, RawEntries(s[d.size..], count - 1).value);
      OneMoreField(KeyField(s), KeyFields(s[d.size..], count - 1));
    }
  }

  lemma OneMoreKey(e: Entry, rest: seq<Entry>)
    ensures KeyedEntries([e] + rest) <==> e.key != [] && KeyedEntries(rest)
  {
    assert forall i :: 0 <= i < |rest| ==> rest[i] == ([e] + rest)[i + 1];
    assert ([e] + rest)[0] == e;
  }

  lemma OneMoreField(field: seq<Byte>, rest: seq<seq<Byte>>)
    ensures NoneStartsWithNul([field] + rest) <==> !StartsWithNul(field) && NoneStartsWithNul(rest)
  {
    assert forall i :: 0 <= i < |rest| ==> rest[i] == ([field] + rest)[i + 1];
    assert ([field] + rest)[0] == field;
  }

  /**
   * Re-reading is stable. For every buffer the reader accepts, the message
   * is valid and its own frame is no longer than the one it was read from;
   * when that frame is within 1 MiB it reads back as the same message if and
   * only if no key field of the buffer starts with NUL.
   */
  lemma RereadStable(buf: seq<Byte>)
    requires Deserialize(buf).Some?
    ensures var m := Deserialize(buf).value;
      var fields := KeyFields(buf[HEADER_SIZE..HEADER_SIZE + Get(buf[4..8])], Get(buf[20..24]));
      && ValidMessage(m)
      && HEADER_SIZE + PayloadSize(m.entries) <= HEADER_SIZE + Get(buf[4..8])
      && (HEADER_SIZE + Get(buf[4..8]) <= MAX_MESSAGE ==> Serialize(m).Some?)
      && (Serialize(m).Some? ==>
            (Deserialize(Serialize(m).value) == Some(m) <==> NoneStartsWithNul(fields)))
  {
    hide DecodeEntries, KeyFields, NoneStartsWithNul, KeyedEntries, RawEntries, PayloadSize;
    Powers();
    var body := buf[HEADER_SIZE..HEADER_SIZE + Get(buf[4..8])];
    var count := Get(buf[20..24]);
    DecodedValid(body, count, []);
    assert PayloadSize([]) == 0 by { EncodedSize([]); }
    var m := Deserialize(buf).value;
    AcceptedBuffer(buf, []);
    EmptyKeys(body, count);
    if Serialize(m).Some? {
      FrameRoundTrip(m, []);
      assert Serialize(m).value + [] == Serialize(m).value;
    }
  }

  /** An accepted 32-byte buffer whose one key is a NUL: its message's own frame is refused. */
  lemma RefusedReread()
    ensures var buf := MAGIC + Put(8, 4) + Put(0, 8) + Put(0, 4) + Put(1, 4) + [1, 0, 0, 6, 0, 0, 0, 0];
      var m := Message([Entry([], Data([]))], 0, false);
      && Deserialize(buf) == Some(m)
      && ValidMessage(m) && Serialize(m).Some? && Deserialize(Serialize(m).value) == None
  {
    var entry: seq<Byte> := [1, 0, 0, 6, 0, 0, 0, 0];
    var m := Message([Entry([], Data([]))], 0, false);
    RefusedEntries();
    ReadBack(Header(8, m) + entry, entry, m);
    RefusedFrame(m);
    hide Serialize, Deserialize;
  }

  /** What a buffer that is a header and a payload reads as. */
  lemma ReadBack(buf: seq<Byte>, payload: seq<Byte>, m: Message)
    requires |payload| < TWO_32 && |m.entries| < TWO_32 && m.id < TWO_64 && buf == Header(|payload|, m) + payload
    requires DecodeEntries(payload, |m.entries|, []) == Some(m.entries)
    ensures Deserialize(buf) == Some(m)
  {
    hide Deserialize, DecodeEntries, Get, Header;
    HeaderFields(|payload|, m, payload);
    FieldsReadBack(buf, payload, m);
  }

  lemma FieldsReadBack(buf: seq<Byte>, payload: seq<Byte>, m: Message)
    requires |buf| == HEADER_SIZE + |payload| && buf[HEADER_SIZE..] == payload && buf[..4] == MAGIC
    requires Get(buf[4..8]) == |payload| && Get(buf[8..16]) == m.id
    requires Get(buf[16..20]) % 2 == (if m.isReply then 1 else 0) && Get(buf[20..24]) == |m.entries|
    requires DecodeEntries(payload, |m.entries|, []) == Some(m.entries)
    ensures Deserialize(buf) == Some(m)
  {
    hide DecodeEntries, Get;
    SliceToEnd(buf, HEADER_SIZE, |payload|);
  }

  lemma SliceToEnd(s: seq<Byte>, from: nat, length: nat)
    requires |s| == from + length
    ensures s[from..from + length] == s[from..]
  {
  }

  lemma RefusedFrame(m: Message)
    requires m == Message([Entry([], Data([]))], 0, false)
    ensures ValidMessage(m) && Serialize(m).Some? && Deserialize(Serialize(m).value) == None
  {
    assert m.entries[0].key == [] && PayloadSize(m.entries[1..]) == 0;
    assert PayloadSize(m.entries) == EntrySize(m.entries[0]) + PayloadSize(m.entries[1..]);
    hide Get, Put, DecodeEntries, EncodeEntries, PayloadSize;
    FrameRoundTrip(m, []);
    assert Serialize(m).value + [] == Serialize(m).value;
  }

  lemma RefusedEntries()
    ensures DecodeEntries([1, 0, 0, 6, 0, 0, 0, 0], 1, []) == Some([Entry([], Data([]))])
  {
    RefusedEntry();
    hide DecodeEntry;
    var entries := [Entry([], Data([]))];
    assert SetEntry([], entries[0]) == entries;
    assert DecodeEntries([], 0, entries) == Some(entries);
  }

  lemma RefusedEntry()
    ensures var s: seq<Byte> := [1, 0, 0, 6, 0, 0, 0, 0];
      DecodeEntry(s) == Some(Decoded(Entry([], Data([])), 8))
  {
    var s: seq<Byte> := [1, 0, 0, 6, 0, 0, 0, 0];
    Powers();
    assert s[..2] == Put(1, 2);
    GetPut(1, 2);
    assert s[2..3] == [0];
    assert CString(s[2..3]) == [];
    var v := s[4..];
    assert v == [0, 0, 0, 0];
    ZeroLength();
    assert v[..4] == v;
    assert DecodeValue(6, v) == Some((Data([]), 4));
  }

  lemma ZeroLength()
    ensures Get([0, 0, 0, 0]) == 0
  {
    assert Put(0, 4) == [0, 0, 0, 0];
    GetPut(0, 4);
  }
}
