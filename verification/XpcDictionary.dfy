/**
 * The message dictionary as the shim keeps it: a singly linked list with head
 * and tail pointers, changed in place, and the loops that write and read
 * frames. The specification of each operation is a function in XpcWire.
 */
module XpcDictionary {
  import opened Common
  import opened XpcWire
  import opened XpcRoundTrip
  import opened Chains

  const SUCCESS: int := 0     // CATBSD_XPC_SUCCESS
  const EINVAL: int := -1     // CATBSD_XPC_EINVAL

  /** Copy `bytes` into the buffer from position `at` (memcpy and the put_ helpers). */
  method Write(buf: array<Byte>, at: nat, bytes: seq<Byte>) returns (after: nat)
    requires at + |bytes| <= buf.Length
    modifies buf
    ensures after == at + |bytes|
    ensures buf[..after] == old(buf[..at]) + bytes
  {
    forall i | 0 <= i < |bytes| {
      buf[at + i] := bytes[i];
    }
    after := at + |bytes|;
  }

  /** The frame header, field by field. */
  method WriteHeader(buf: array<Byte>, payload: nat, id: nat, isReply: bool, count: nat, ghost m: Message)
    returns (after: nat)
    requires buf.Length >= HEADER_SIZE && m.id == id && m.isReply == isReply && |m.entries| == count
    modifies buf
    ensures after == HEADER_SIZE && buf[..after] == Header(payload, m)
  {
    after := Write(buf, 0, MAGIC);
    after := Write(buf, after, Put(payload, 4));
    after := Write(buf, after, Put(id, 8));
    after := Write(buf, after, Put(if isReply then FLAG_REPLY else 0, 4));
    after := Write(buf, after, Put(count, 4));
  }

  lemma ValueEncodedSize(v: Value)
    requires ValidValue(v)
    ensures |EncodeValue(v)| == ValueSize(v)
  {
  }

  lemma Concatenated(a: seq<Byte>, b: seq<Byte>, c: seq<Byte>, d: seq<Byte>, e: seq<Byte>)
    ensures a + b + c + d + e == a + (b + c + d + e)
  {
  }

  /** One entry: key length, key, type tag, value. */
  method WriteEntry(buf: array<Byte>, at: nat, key: seq<Byte>, value: Value) returns (after: nat)
    requires ValidEntry(Entry(key, value)) && at + EntrySize(Entry(key, value)) <= buf.Length
    modifies buf
    ensures after == at + EntrySize(Entry(key, value))
    ensures buf[..after] == old(buf[..at]) + EncodeEntry(Entry(key, value))
  {
    hide EncodeValue, ValueSize, Put, Tag;
    ValueEncodedSize(value);
    Concatenated(buf[..at], Put(|key|, 2), key, [Tag(value)], EncodeValue(value));
    after := Write(buf, at, Put(|key|, 2));
    after := Write(buf, after, key);
    after := Write(buf, after, [Tag(value)]);
    after := Write(buf, after, EncodeValue(value));
  }

  lemma EncodeStep(es: seq<Entry>, i: nat)
    requires i < |es| && forall k :: 0 <= k < |es| ==> ValidEntry(es[k])
    ensures EncodeEntries(es[i..]) == EncodeEntry(es[i]) + EncodeEntries(es[i + 1..])
    ensures PayloadSize(es[i..]) == EntrySize(es[i]) + PayloadSize(es[i + 1..])
  {
    assert es[i..][1..] == es[i + 1..];
  }

  lemma Reassociate(a: seq<Byte>, b: seq<Byte>, c: seq<Byte>)
    ensures a + (b + c) == (a + b) + c
  {
  }

  class Dictionary {
    var head: Node?<Entry>
    var tail: Node?<Entry>
    var count: nat
    var msgId: nat
    var isReply: bool
    ghost var nodes: seq<Node<Entry>>

    ghost predicate Valid()
      reads this, nodes
    {
      count == |nodes| && Chain(nodes) && head == First(nodes) && tail == Last(nodes)
    }

    ghost function Entries(): seq<Entry>
      reads this, nodes
    {
      Items(nodes)
    }

    ghost function Contents(): Message
      reads this, nodes
    {
      Message(Entries(), msgId, isReply)
    }

    /** catbsd_xpc_dictionary_create. */
    constructor ()
      ensures Valid() && Contents() == Message([], 0, false)
      ensures nodes == []
    {
      head, tail, count, msgId, isReply := null, null, 0, 0, false;
      nodes := [];
    }

    /** entry_find. */
    method EntryFind(key: seq<Byte>) returns (e: Node?<Entry>)
      requires Valid()
      ensures var i := IndexOf(Entries(), key);
        e == if i < |nodes| then nodes[i] else null
    {
      e := head;
      ghost var i := 0;
      while e != null
        invariant i <= |nodes| && e == if i < |nodes| then nodes[i] else null
        invariant forall j :: 0 <= j < i ==> Entries()[j].key != key
        decreases |nodes| - i
      {
        if e.item.key == key {
          assert Entries()[i].key == key;
          return;
        }
        e, i := e.next, i + 1;
      }
    }

    /** A new node goes behind the tail. */
    method Append(key: seq<Byte>, value: Value)
      requires Valid()
      modifies this, nodes
      ensures Valid() && |nodes| == |old(nodes)| + 1 && fresh(nodes[|nodes| - 1])
      ensures nodes[..|nodes| - 1] == old(nodes)
      ensures Entries() == old(Entries()) + [Entry(key, value)]
      ensures msgId == old(msgId) && isReply == old(isReply)
    {
      var e := new Node<Entry>(Entry(key, value));
      if tail != null {
        tail.next := e;
      } else {
        head := e;
      }
      tail := e;
      count := count + 1;
      nodes := nodes + [e];
    }

    /** An existing entry takes the new value where it is. */
    method Replace(e: Node<Entry>, value: Value, ghost i: nat)
      requires Valid() && i < |nodes| && nodes[i] == e
      modifies nodes
      ensures Valid() && Entries() == old(Entries())[i := Entry(old(e.item.key), value)]
    {
      hide Items;
      e.item := Entry(e.item.key, value);
      assert forall k :: 0 <= k < |nodes| ==> Entries()[k] == old(Entries())[i := Entry(old(e.item.key), value)][k];
    }

    /** entry_reset followed by the setter's assignment: replace in place, or append at the tail. */
    method Assign(key: seq<Byte>, value: Value)
      requires Valid()
      modifies this, nodes
      ensures Valid() && Entries() == SetEntry(old(Entries()), Entry(key, value))
      ensures msgId == old(msgId) && isReply == old(isReply)
      ensures forall n :: n in nodes ==> n in old(nodes) || fresh(n)
    {
      hide Items, Chain, IndexOf;
      var e := EntryFind(key);
      if e == null {
        Append(key, value);
        assert forall n :: n in nodes ==> n in nodes[..|nodes| - 1] || n == nodes[|nodes| - 1];
      } else {
        ghost var i := IndexOf(Entries(), key);
        assert Entries()[i].key == key;
        Replace(e, value, i);
      }
    }

    /** XPC_SET_PROLOGUE: what the public setters refuse. */
    predicate KeyRefused(key: seq<Byte>) {
      key == [] || |key| > MAX_KEY
    }

    /** An entry of one of the two byte-carrying types. */
    function BytesEntry(key: seq<Byte>, isString: bool, bytes: seq<Byte>): Entry {
      Entry(key, if isString then Str(bytes) else Data(bytes))
    }

    /** The four scalar setters. */
    method SetScalar(key: seq<Byte>, value: Value) returns (rc: int)
      requires Valid() && NulFree(key) && !value.Str? && !value.Data? && ValidValue(value)
      modifies this, nodes
      ensures Valid() && rc == (if EditAccepted(SetTo(Entry(key, value))) then SUCCESS else EINVAL)
      ensures Entries() == if rc == SUCCESS then SetEntry(old(Entries()), Entry(key, value)) else old(Entries())
      ensures msgId == old(msgId) && isReply == old(isReply)
      ensures forall n :: n in nodes ==> n in old(nodes) || fresh(n)
    {
      hide Items, Chain, SetEntry;
      if KeyRefused(key) {
        return EINVAL;
      }
      Assign(key, value);
      rc := SUCCESS;
    }

    /** The string and the data setter. */
    method SetText(key: seq<Byte>, isString: bool, bytes: seq<Byte>) returns (rc: int)
      requires Valid() && NulFree(key)
      modifies this, nodes
      ensures Valid() && rc == (if EditAccepted(SetTo(BytesEntry(key, isString, bytes))) then SUCCESS else EINVAL)
      ensures Entries() ==
        if rc == SUCCESS then SetEntry(old(Entries()), BytesEntry(key, isString, bytes)) else old(Entries())
      ensures msgId == old(msgId) && isReply == old(isReply)
      ensures forall n :: n in nodes ==> n in old(nodes) || fresh(n)
    {
      hide Items, Chain, SetEntry;
      BytesAccepted(key, isString, bytes);
      if KeyRefused(key) {
        return EINVAL;
      }
      rc := SetBytes(key, isString, bytes);
    }

    lemma BytesAccepted(key: seq<Byte>, isString: bool, bytes: seq<Byte>)
      requires NulFree(key)
      ensures EditAccepted(SetTo(BytesEntry(key, isString, bytes))) <==> !KeyRefused(key) && |bytes| <= MAX_MESSAGE
    {
    }

    /** dictionary_set_bytes: only the length is checked here, not the key. */
    method SetBytes(key: seq<Byte>, isString: bool, bytes: seq<Byte>) returns (rc: int)
      requires Valid()
      modifies this, nodes
      ensures Valid() && rc == (if |bytes| > MAX_MESSAGE then EINVAL else SUCCESS)
      ensures Entries() ==
        if rc == SUCCESS then SetEntry(old(Entries()), BytesEntry(key, isString, bytes)) else old(Entries())
      ensures msgId == old(msgId) && isReply == old(isReply)
      ensures forall n :: n in nodes ==> n in old(nodes) || fresh(n)
    {
      hide Items, Chain, SetEntry;
      if |bytes| > MAX_MESSAGE {
        return EINVAL;
      }
      Assign(key, if isString then Str(bytes) else Data(bytes));
      rc := SUCCESS;
    }

    /** Take node i out of the list; if it was the tail, walk to the new one. */
    method RemoveAt(prev: Node?<Entry>, e: Node<Entry>, ghost i: nat)
      requires Valid() && i < |nodes| && nodes[i] == e && prev == if i == 0 then null else nodes[i - 1]
      modifies this, nodes
      ensures Valid() && nodes == old(nodes)[..i] + old(nodes)[i + 1..]
      ensures forall n :: n in old(nodes) ==> n.item == old(n.item)
      ensures msgId == old(msgId) && isReply == old(isReply)
    {
      ghost var was := nodes;
      Unlinked(was, i);
      var next := Unlink(prev, e, was, i);
      if prev == null {
        head := next;
      }
      nodes := was[..i] + was[i + 1..];
      if tail == e {
        tail := FindLast(head, nodes);
      } else {
        assert i < |was| - 1;
      }
      count := count - 1;
    }

    /** The search of catbsd_xpc_dictionary_remove, one node behind. */
    method FindWithPredecessor(key: seq<Byte>) returns (prev: Node?<Entry>, e: Node?<Entry>, ghost i: nat)
      requires Valid()
      ensures i == IndexOf(Entries(), key)
      ensures e == if i < |nodes| then nodes[i] else null
      ensures e != null ==> prev == if i == 0 then null else nodes[i - 1]
    {
      hide Items;
      prev, e, i := null, head, 0;
      while e != null && e.item.key != key
        invariant i <= |nodes| && e == if i < |nodes| then nodes[i] else null
        invariant prev == if i == 0 then null else nodes[i - 1]
        invariant forall j :: 0 <= j < i ==> Entries()[j].key != key
        decreases |nodes| - i
      {
        prev := e;
        e, i := e.next, i + 1;
      }
      assert e != null ==> Entries()[i].key == key;
    }

    /** catbsd_xpc_dictionary_remove. */
    method Remove(key: seq<Byte>) returns (rc: int)
      requires Valid()
      modifies this, nodes
      ensures Valid() && Entries() == RemoveKey(old(Entries()), key)
      ensures rc == (if IndexOf(old(Entries()), key) < |old(Entries())| then SUCCESS else EINVAL)
      ensures msgId == old(msgId) && isReply == old(isReply)
      ensures forall n :: n in nodes ==> n in old(nodes)
    {
      hide Items, Chain, IndexOf;
      var prev, e, i := FindWithPredecessor(key);
      if e == null {
        return EINVAL;
      }
      ItemsUnlinked(nodes, i);
      Unlinked(nodes, i);
      RemoveAt(prev, e, i);
      ItemsKept(nodes);
      rc := SUCCESS;
    }

    /** payload_size_locked. */
    method PayloadSizeLocked() returns (total: nat)
      requires Valid()
      ensures total == PayloadSize(Entries())
    {
      total := 0;
      var e := head;
      ghost var i := 0;
      assert Entries()[0..] == Entries();
      while e != null
        invariant i <= |nodes| && e == if i < |nodes| then nodes[i] else null
        invariant total + PayloadSize(Entries()[i..]) == PayloadSize(Entries())
        decreases |nodes| - i
      {
        assert Entries()[i..][1..] == Entries()[i + 1..];
        total := total + 2 + |e.item.key| + 1;
        match e.item.value {
          case Bool(_) => total := total + 1;
          case Int64(_) => total := total + 8;
          case Uint64(_) => total := total + 8;
          case Double(_) => total := total + 8;
          case Str(text) => total := total + 4 + |text|;
          case Data(bytes) => total := total + 4 + |bytes|;
        }
        e, i := e.next, i + 1;
      }
    }

    /** catbsd_xpc_serialize: one buffer of exactly the computed size, filled by a cursor. */
    method SerializeLocked() returns (r: Option<seq<Byte>>)
      requires Valid() && ValidMessage(Contents())
      ensures r == Serialize(Contents())
    {
      var payload := PayloadSizeLocked();
      var total := HEADER_SIZE + payload;
      if total > MAX_MESSAGE {
        return None;
      }
      hide Header, EncodeEntries, Items, Chain, ValidEntry, PayloadSize;
      EncodedSize(Entries());
      var frame := FillFrame(payload);
      r := Some(frame);
    }

    /** Allocate the frame and fill it. */
    method FillFrame(payload: nat) returns (frame: seq<Byte>)
      requires Valid() && ValidMessage(Contents()) && payload == PayloadSize(Entries())
      ensures frame == Header(payload, Contents()) + EncodeEntries(Entries())
    {
      hide Header, EncodeEntries, Items, Chain, ValidEntry, PayloadSize;
      var buf := new Byte[HEADER_SIZE + payload];
      var p := WriteHeader(buf, payload, msgId, isReply, count, Contents());
      p := WriteEntries(buf, p);
      assert buf[..p] == buf[..];
      frame := buf[..];
    }

    /** The writing loop: the cursor ends exactly at the end of the buffer. */
    method WriteEntries(buf: array<Byte>, at: nat) returns (p: nat)
      requires Valid() && ValidEntries(Entries()) && at + PayloadSize(Entries()) == buf.Length
      modifies buf
      ensures p == buf.Length && buf[..p] == old(buf[..at]) + EncodeEntries(Entries())
    {
      hide EncodeEntry, ValidEntry, EntrySize;
      p := at;
      var e := head;
      ghost var i := 0;
      ghost var es := Entries();
      ghost var start := buf[..at];
      assert es[0..] == es;
      while e != null
        invariant i <= |nodes| && e == if i < |nodes| then nodes[i] else null
        invariant p <= buf.Length && p + PayloadSize(es[i..]) == buf.Length
        invariant buf[..p] + EncodeEntries(es[i..]) == start + EncodeEntries(es)
        decreases |nodes| - i
      {
        ghost var before := buf[..p];
        assert es[i] == Entry(e.item.key, e.item.value);
        EncodeStep(es, i);
        p := WriteEntry(buf, p, e.item.key, e.item.value);
        Reassociate(before, EncodeEntry(es[i]), EncodeEntries(es[i + 1..]));
        e, i := e.next, i + 1;
      }
      assert es[i..] == [];
      assert buf[..p] + [] == buf[..p];
    }

    /** catbsd_xpc_deserialize: null is the source's NULL. */
    static method Parse(buf: seq<Byte>) returns (d: Dictionary?)
      ensures d != null <==> Deserialize(buf).Some?
      ensures d != null ==>
        && fresh(d) && (forall n :: n in d.nodes ==> fresh(n))
        && d.Valid() && d.Contents() == Deserialize(buf).value
    {
      hide DecodeEntries;
      if |buf| < HEADER_SIZE || buf[..4] != MAGIC {
        return null;
      }
      var payload := Get(buf[4..8]);
      if payload + HEADER_SIZE > |buf| {
        return null;
      }
      var count := Get(buf[20..24]);
      var result := new Dictionary();
      result.msgId := Get(buf[8..16]);
      result.isReply := Get(buf[16..20]) % 2 == 1;
      var p := buf[HEADER_SIZE..HEADER_SIZE + payload];
      var ok := result.ReadEntries(p, count);
      if ok {
        d := result;
      } else {
        d := null;
      }
    }

    /** The reading loop: `off` stays within the declared payload. */
    method ReadEntries(p: seq<Byte>, count: nat) returns (ok: bool)
      requires Valid() && nodes == []
      modifies this
      ensures ok <==> DecodeEntries(p, count, []).Some?
      ensures ok ==> Valid() && Entries() == DecodeEntries(p, count, []).value
      ensures ok ==> msgId == old(msgId) && isReply == old(isReply)
      ensures ok ==> forall n :: n in nodes ==> fresh(n)
    {
      hide DecodeEntry, ValidEntry, SetEntry, Items, Chain;
      var off := 0;
      var i := 0;
      assert p[0..] == p;
      while i < count
        invariant i <= count && off <= |p|
        invariant Valid() && msgId == old(msgId) && isReply == old(isReply)
        invariant fresh(nodes)
        invariant DecodeEntries(p[off..], count - i, Entries()) == DecodeEntries(p, count, [])
      {
        var read, at, key, value := ReadEntry(p, off);
        if !read {
          return false;
        }
        assert p[off..][at - off..] == p[at..];
        Assign(key, value);
        forall k | 0 <= k < |nodes|
          ensures fresh(nodes[k])
        {
          assert nodes[k] in nodes;
        }
        off := at;
        i := i + 1;
      }
      ok := true;
    }
  }

  // ------------------------------------------------- one entry, field by field

  lemma At(p: seq<Byte>, off: nat, from: nat, to: nat)
    requires off <= |p| && from <= to && off + to <= |p|
    ensures p[off..][from..to] == p[off + from..off + to] && p[off..][to..] == p[off + to..]
  {
  }

  /** The value of an entry; each field is checked against the end of the payload before it is read. */
  method ReadValue(p: seq<Byte>, off: nat, tag: Byte) returns (ok: bool, at: nat, value: Value)
    requires off <= |p|
    ensures ok <==> DecodeValue(tag, p[off..]).Some?
    ensures ok ==> off <= at <= |p| && DecodeValue(tag, p[off..]) == Some((value, at - off))
  {
    ok, at, value := false, off, Bool(false);
    if tag == 1 {
      if off + 1 > |p| {
        return;
      }
      value, at := Bool(p[off] != 0), off + 1;
    } else if tag == 2 || tag == 3 || tag == 4 {
      if off + 8 > |p| {
        return;
      }
      At(p, off, 0, 8);
      Powers();
      var u := Get(p[off..off + 8]);
      value, at := (if tag == 2 then Int64(ToSigned(u)) else if tag == 3 then Uint64(u) else Double(u)), off + 8;
    } else if tag == 5 || tag == 6 {
      if off + 4 > |p| {
        return;
      }
      At(p, off, 0, 4);
      var n := Get(p[off..off + 4]);
      if n > |p| - (off + 4) || n > MAX_MESSAGE {
        return;
      }
      At(p, off, 4, 4 + n);
      var bytes := p[off + 4..off + 4 + n];
      value, at := (if tag == 5 then Str(bytes) else Data(bytes)), off + 4 + n;
    } else {
      return;
    }
    ok := true;
  }

  /** One entry at `off`: its key up to the first NUL, its type, its value, and where it ends. */
  method ReadEntry(p: seq<Byte>, off: nat) returns (ok: bool, at: nat, key: seq<Byte>, value: Value)
    requires off <= |p|
    ensures ok <==> DecodeEntry(p[off..]).Some?
    ensures ok ==> off <= at <= |p| && DecodeEntry(p[off..]) == Some(Decoded(Entry(key, value), at - off))
  {
    hide DecodeValue, Get, CString;
    ok, at, key, value := false, off, [], Bool(false);
    if off + 2 > |p| {
      return;
    }
    At(p, off, 0, 2);
    var klen := Get(p[off..off + 2]);
    if off + 2 + klen + 1 > |p| || klen == 0 {
      return;
    }
    At(p, off, 2, 2 + klen);
    At(p, off, 2 + klen, 3 + klen);
    key := CString(p[off + 2..off + 2 + klen]);
    var tag := p[off + 2 + klen];
    assert p[off..][2 + klen] == tag;
    ok, at, value := ReadValue(p, off + 3 + klen, tag);
    ok := ok && KeyAccepted(tag, key);
  }
}
