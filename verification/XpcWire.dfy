/**
 * The XPC shim's wire format: what a message dictionary serializes to and
 * what a buffer deserializes to, as functions on bytes.
 */
module XpcWire {
  import opened Common

  const MAX_MESSAGE: nat := 0x10_0000      // CATBSD_XPC_MAX_MESSAGE
  const HEADER_SIZE: nat := 24             // XPC_HEADER_SIZE
  const MAGIC: seq<Byte> := [0x43, 0x58, 0x50, 0x31]   // "CXP1"
  const FLAG_REPLY: nat := 1               // XPC_FLAG_REPLY
  const MAX_KEY: nat := 65535

  /** A double is its 64 bits; a string's bytes exclude the terminator. */
  datatype Value =
    | Bool(b: bool)
    | Int64(i: int)
    | Uint64(u: nat)
    | Double(bits: nat)
    | Str(text: seq<Byte>)
    | Data(bytes: seq<Byte>)

  datatype Entry = Entry(key: seq<Byte>, value: Value)

  datatype Message = Message(entries: seq<Entry>, id: nat, isReply: bool)

  // ---------------------------------------------------------- little-endian

  function Pow256(k: nat): (p: nat)
    ensures p > 0
  {
    if k == 0 then 1 else 256 * Pow256(k - 1)
  }

  /** put_u16, put_u32, put_u64: the low k bytes of n. */
  function Put(n: nat, k: nat): (bytes: seq<Byte>)
    ensures |bytes| == k
  {
    if k == 0 then [] else [n % 256] + Put(n / 256, k - 1)
  }

  /** get_u16, get_u32, get_u64. */
  function Get(bytes: seq<Byte>): (n: nat)
    ensures n < Pow256(|bytes|)
  {
    if bytes == [] then 0 else bytes[0] + 256 * Get(bytes[1..])
  }

  lemma {:induction false} GetPut(n: nat, k: nat)
    requires n < Pow256(k)
    ensures Get(Put(n, k)) == n
  {
    if k > 0 {
      GetPut(n / 256, k - 1);
      assert Put(n, k)[1..] == Put(n / 256, k - 1);
    }
  }

  lemma Powers()
    ensures Pow256(2) == 0x1_0000 && Pow256(4) == TWO_32 && Pow256(8) == TWO_64
  {
    assert Pow256(1) == 256;
    assert Pow256(3) == 256 * Pow256(2);
    assert Pow256(5) == 256 * Pow256(4);
    assert Pow256(6) == 256 * Pow256(5);
    assert Pow256(7) == 256 * Pow256(6);
  }

  /** (uint64_t) of an int64_t, and back. */
  function ToUnsigned(i: int): nat
    requires -TWO_63 <= i < TWO_63
  {
    if i < 0 then i + TWO_64 else i
  }

  function ToSigned(u: nat): int {
    if u >= TWO_63 then u - TWO_64 else u
  }

  // ------------------------------------------------------------ dictionaries

  predicate ValidValue(v: Value) {
    match v
    case Bool(_) => true
    case Int64(i) => -TWO_63 <= i < TWO_63
    case Uint64(u) => u < TWO_64
    case Double(bits) => bits < TWO_64
    case Str(text) => |text| <= MAX_MESSAGE
    case Data(bytes) => |bytes| <= MAX_MESSAGE
  }

  /** Anything a dictionary can hold; only the deserializer can make an empty key. */
  predicate ValidEntry(e: Entry) {
    NulFree(e.key) && |e.key| <= MAX_KEY && ValidValue(e.value)
  }

  function Keys(entries: seq<Entry>): (ks: seq<seq<Byte>>)
    ensures |ks| == |entries| && forall i :: 0 <= i < |ks| ==> ks[i] == entries[i].key
  {
    seq(|entries|, i requires 0 <= i < |entries| => entries[i].key)
  }

  predicate Distinct(entries: seq<Entry>) {
    forall i, j :: 0 <= i < j < |entries| ==> entries[i].key != entries[j].key
  }

  predicate ValidEntries(entries: seq<Entry>) {
    Distinct(entries) && forall i :: 0 <= i < |entries| ==> ValidEntry(entries[i])
  }

  predicate KeyedEntries(entries: seq<Entry>) {
    forall i :: 0 <= i < |entries| ==> entries[i].key != []
  }

  predicate ValidMessage(m: Message) {
    ValidEntries(m.entries) && m.id < TWO_64
  }

  /** entry_find: the position of a key, or the number of entries. */
  function IndexOf(entries: seq<Entry>, key: seq<Byte>): (i: nat)
    ensures i <= |entries|
    ensures i < |entries| ==> entries[i].key == key
    ensures forall j :: 0 <= j < i ==> entries[j].key != key
  {
    if entries == [] || entries[0].key == key then 0 else 1 + IndexOf(entries[1..], key)
  }

  /** A setter: replace in place, or append. */
  function SetEntry(entries: seq<Entry>, e: Entry): (r: seq<Entry>)
  {
    var i := IndexOf(entries, e.key);
    if i < |entries| then entries[i := e] else entries + [e]
  }

  /** catbsd_xpc_dictionary_remove. */
  function RemoveKey(entries: seq<Entry>, key: seq<Byte>): seq<Entry> {
    var i := IndexOf(entries, key);
    if i < |entries| then entries[..i] + entries[i + 1..] else entries
  }

  lemma SetKeepsValid(entries: seq<Entry>, e: Entry)
    requires ValidEntries(entries) && ValidEntry(e)
    ensures ValidEntries(SetEntry(entries, e))
    ensures KeyedEntries(entries) && e.key != [] ==> KeyedEntries(SetEntry(entries, e))
  {
  }

  lemma RemoveKeepsValid(entries: seq<Entry>, key: seq<Byte>)
    requires ValidEntries(entries)
    ensures ValidEntries(RemoveKey(entries, key))
    ensures KeyedEntries(entries) ==> KeyedEntries(RemoveKey(entries, key))
    ensures forall i :: 0 <= i < |RemoveKey(entries, key)| ==> RemoveKey(entries, key)[i].key != key
  {
    var i := IndexOf(entries, key);
    var r := RemoveKey(entries, key);
    if i < |entries| {
      assert forall j :: 0 <= j < |r| ==> r[j] == entries[if j < i then j else j + 1];
    }
  }

  // ------------------------------------------------------------- serializing

  function Tag(v: Value): Byte {
    match v
    case Bool(_) => 1
    case Int64(_) => 2
    case Uint64(_) => 3
    case Double(_) => 4
    case Str(_) => 5
    case Data(_) => 6
  }

  function EncodeValue(v: Value): seq<Byte>
    requires ValidValue(v)
  {
    match v
    case Bool(b) => [if b then 1 else 0]
    case Int64(i) => Put(ToUnsigned(i), 8)
    case Uint64(u) => Put(u, 8)
    case Double(bits) => Put(bits, 8)
    case Str(text) => Put(|text|, 4) + text
    case Data(bytes) => Put(|bytes|, 4) + bytes
  }

  function EncodeEntry(e: Entry): seq<Byte>
    requires ValidEntry(e)
  {
    Put(|e.key|, 2) + e.key + [Tag(e.value)] + EncodeValue(e.value)
  }

  function EncodeEntries(entries: seq<Entry>): seq<Byte>
    requires forall i :: 0 <= i < |entries| ==> ValidEntry(entries[i])
  {
    if entries == [] then [] else EncodeEntry(entries[0]) + EncodeEntries(entries[1..])
  }

  function ValueSize(v: Value): nat {
    match v
    case Bool(_) => 1
    case Int64(_) => 8
    case Uint64(_) => 8
    case Double(_) => 8
    case Str(text) => 4 + |text|
    case Data(bytes) => 4 + |bytes|
  }

  function EntrySize(e: Entry): nat {
    2 + |e.key| + 1 + ValueSize(e.value)
  }

  /** payload_size_locked. */
  function PayloadSize(entries: seq<Entry>): nat {
    if entries == [] then 0 else EntrySize(entries[0]) + PayloadSize(entries[1..])
  }

  /** Serializing writes exactly the bytes payload_size_locked counted. */
  lemma {:induction false} EncodedSize(entries: seq<Entry>)
    requires forall i :: 0 <= i < |entries| ==> ValidEntry(entries[i])
    ensures |EncodeEntries(entries)| == PayloadSize(entries)
    ensures |entries| * 4 <= PayloadSize(entries)
  {
    if entries != [] {
      EncodedSize(entries[1..]);
    }
  }

  function Header(payload: nat, m: Message): (h: seq<Byte>)
    ensures |h| == HEADER_SIZE
  {
    MAGIC + Put(payload, 4) + Put(m.id, 8) + Put(if m.isReply then FLAG_REPLY else 0, 4) + Put(|m.entries|, 4)
  }

  /** catbsd_xpc_serialize; None is CATBSD_XPC_EPROTO. */
  function Serialize(m: Message): Option<seq<Byte>>
    requires ValidMessage(m)
  {
    var payload := PayloadSize(m.entries);
    if HEADER_SIZE + payload > MAX_MESSAGE then None
    else Some(Header(payload, m) + EncodeEntries(m.entries))
  }

  // ----------------------------------------------------------- deserializing

  /** An entry as read, and the number of payload bytes it took. */
  datatype Decoded = Decoded(entry: Entry, size: nat)

  /** The value of type `tag` at the front of `s`; None when it runs past the payload or is refused. */
  function DecodeValue(tag: Byte, s: seq<Byte>): (r: Option<(Value, nat)>)
    ensures r.Some? ==> r.value.1 <= |s| && ValidValue(r.value.0) && Tag(r.value.0) == tag
    ensures r.Some? ==> r.value.1 == ValueSize(r.value.0)
  {
    if tag == 1 then
      if |s| < 1 then None else Some((Bool(s[0] != 0), 1))
    else if tag == 2 || tag == 3 || tag == 4 then
      if |s| < 8 then None
      else
        Powers();
        var u := Get(s[..8]);
        Some((if tag == 2 then Int64(ToSigned(u)) else if tag == 3 then Uint64(u) else Double(u), 8))
    else if tag == 5 || tag == 6 then
      if |s| < 4 then None
      else
        var n := Get(s[..4]);
        if n > |s| - 4 || n > MAX_MESSAGE then None
        else Some((if tag == 5 then Str(s[4..4 + n]) else Data(s[4..4 + n]), 4 + n))
    else None
  }

  /** The public scalar setters refuse an empty key; the byte-carrying types bypass that check. */
  predicate KeyAccepted(tag: Byte, key: seq<Byte>) {
    tag == 5 || tag == 6 || key != []
  }

  /** One iteration of the reading loop on what is left of the payload. */
  function DecodeEntry(s: seq<Byte>): (r: Option<Decoded>)
    ensures r.Some? ==> r.value.size <= |s| && ValidEntry(r.value.entry)
    ensures r.Some? ==> r.value.size >= EntrySize(r.value.entry)
  {
    if |s| < 2 then None
    else
      Powers();
      var klen := Get(s[..2]);
      if 2 + klen + 1 > |s| || klen == 0 then None
      else
        var key := CString(s[2..2 + klen]);
        var tag := s[2 + klen];
        match DecodeValue(tag, s[3 + klen..])
        case None => None
        case Some((v, n)) =>
          if KeyAccepted(tag, key) then Some(Decoded(Entry(key, v), 3 + klen + n)) else None
  }

  /** The whole loop: `count` entries set one after the other into `entries`. */
  function DecodeEntries(s: seq<Byte>, count: nat, entries: seq<Entry>): Option<seq<Entry>>
    decreases count
  {
    if count == 0 then Some(entries)
    else
      match DecodeEntry(s)
      case None => None
      case Some(d) => DecodeEntries(s[d.size..], count - 1, SetEntry(entries, d.entry))
  }

  /** catbsd_xpc_deserialize. Only buf[24..24 + payload] is ever looked at for entries. */
  function Deserialize(buf: seq<Byte>): Option<Message> {
    if |buf| < HEADER_SIZE || buf[..4] != MAGIC then None
    else
      var payload := Get(buf[4..8]);
      if payload + HEADER_SIZE > |buf| then None
      else
        var count := Get(buf[20..24]);
        match DecodeEntries(buf[HEADER_SIZE..HEADER_SIZE + payload], count, [])
        case None => None
        case Some(entries) => Some(Message(entries, Get(buf[8..16]), Get(buf[16..20]) % 2 == 1))
  }
}
