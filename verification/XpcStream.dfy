/**
 * Frames over a byte stream that splits and joins them as it likes: partial
 * sends, partial receives, interruptions, a peer that closes.
 */
module XpcStream {
  import opened Common
  import opened XpcWire
  import opened XpcRoundTrip
  import opened XpcFormat
  import opened XpcDeadline

  const SUCCESS: int := 0
  const EIO: int := -3        // CATBSD_XPC_EIO
  const ETIMEOUT: int := -4   // CATBSD_XPC_ETIMEOUT
  const ECLOSED: int := -5    // CATBSD_XPC_ECLOSED
  const EPROTO: int := -6     // CATBSD_XPC_EPROTO

  // ------------------------------------------------ what a stream holds

  datatype Next =
    | Frame(message: Message, rest: seq<Byte>)
    | Cut          // the stream ends before the frame does
    | Malformed(rest: seq<Byte>)    // bad magic, oversized, or entries that do not parse; where reading stops

  /** The first frame of a stream of bytes. */
  function NextFrame(s: seq<Byte>): (n: Next)
    ensures n.Frame? || n.Malformed? ==> |n.rest| < |s| && s[|s| - |n.rest|..] == n.rest
  {
    if |s| < HEADER_SIZE then Cut
    else if s[..4] != MAGIC then Malformed(s[HEADER_SIZE..])
    else
      var payload := Get(s[4..8]);
      if payload + HEADER_SIZE > MAX_MESSAGE then Malformed(s[HEADER_SIZE..])
      else if |s| < HEADER_SIZE + payload then Cut
      else
        match Deserialize(s[..HEADER_SIZE + payload])
        case None => Malformed(s[HEADER_SIZE + payload..])
        case Some(m) => Frame(m, s[HEADER_SIZE + payload..])
  }

  /**
   * What is read off a stream, by the letter of the format: a message exactly if
   * a frame of it, within 1 MiB, stands at the front; and more is waited for
   * exactly while there is less than a header, or less than a header of that
   * form declares. Anything else is malformed.
   */
  lemma NextFrameIs(s: seq<Byte>, m: Message, rest: seq<Byte>)
    ensures NextFrame(s) == Frame(m, rest) <==>
      && |s| >= 24 && 24 + Le32(s, 4) <= |s| && 24 + Le32(s, 4) <= 0x10_0000
      && IsFrameOf(s[..24 + Le32(s, 4)], m) && rest == s[24 + Le32(s, 4)..]
    ensures NextFrame(s) == Cut <==>
      |s| < 24 ||
      (s[0] == 0x43 && s[1] == 0x58 && s[2] == 0x50 && s[3] == 0x31 &&
       24 + Le32(s, 4) <= 0x10_0000 && |s| < 24 + Le32(s, 4))
  {
    hide Deserialize, Get, IsFrameOf;
    if |s| >= 24 {
      HeaderIs(s);
      hide Le32;
      if 24 + Le32(s, 4) <= |s| {
        AcceptsExactlyFrames(s[..24 + Le32(s, 4)], m);
        FramesStart(s[..24 + Le32(s, 4)], m);
      }
    }
  }

  lemma FramesStart(s: seq<Byte>, m: Message)
    ensures IsFrameOf(s, m) ==> |s| >= 24 && s[0] == 0x43 && s[1] == 0x58 && s[2] == 0x50 && s[3] == 0x31
  {
  }

  /** Reading frames until the first that is not there. */
  function ReadAll(s: seq<Byte>): (seq<Message>, Next)
    decreases |s|
  {
    match NextFrame(s)
    case Frame(m, rest) => var (ms, last) := ReadAll(rest); ([m] + ms, last)
    case other => ([], other)
  }

  predicate Sendable(m: Message) {
    ValidMessage(m) && KeyedEntries(m.entries) && Serialize(m).Some?
  }

  function Wire(ms: seq<Message>): seq<Byte>
    requires forall i :: 0 <= i < |ms| ==> Sendable(ms[i])
  {
    if ms == [] then []
    else
      assert Sendable(ms[0]);
      Serialize(ms[0]).value + Wire(ms[1..])
  }

  lemma SerializedHeader(m: Message)
    requires Sendable(m)
    ensures var f := Serialize(m).value;
      && |f| == HEADER_SIZE + PayloadSize(m.entries) <= MAX_MESSAGE
      && f[..4] == MAGIC && Get(f[4..8]) == PayloadSize(m.entries)
  {
    EncodedSize(m.entries);
    HeaderFields(PayloadSize(m.entries), m, EncodeEntries(m.entries));
  }

  /** A frame at the front of any stream is read as its message, and reading stops at its end. */
  lemma FrameFirst(m: Message, rest: seq<Byte>)
    requires Sendable(m)
    ensures NextFrame(Serialize(m).value + rest) == Frame(m, rest)
  {
    var f := Serialize(m).value;
    var s := f + rest;
    SerializedHeader(m);
    assert s[..4] == f[..4] && s[4..8] == f[4..8];
    assert s[..|f|] == f + [] && s[|f|..] == rest;
    FrameRoundTrip(m, []);
  }

  /** Any proper prefix of a frame is a cut stream. */
  lemma PrefixIsCut(m: Message, n: nat)
    requires Sendable(m) && n < |Serialize(m).value|
    ensures NextFrame(Serialize(m).value[..n]) == Cut
  {
    var f := Serialize(m).value;
    SerializedHeader(m);
    if n >= HEADER_SIZE {
      assert f[..n][..4] == f[..4] && f[..n][4..8] == f[4..8];
    }
  }

  /**
   * A read that fails after taking `gone` bytes: it wanted more than those, or
   * they cannot be a frame. The bytes are dropped.
   */
  predicate FailsAfter(s: seq<Byte>, gone: nat) {
    gone <= |s| && (NextFrame(s[..gone]) == Cut || NextFrame(s) == Malformed(s[gone..]))
  }

  predicate OnBoundary(ms: seq<Message>, at: nat)
    requires forall i :: 0 <= i < |ms| ==> Sendable(ms[i])
  {
    exists n :: 0 <= n <= |ms| && at == |Wire(ms[..n])|
  }

  lemma {:induction false} WireSplit(ms: seq<Message>, n: nat)
    requires n <= |ms| && forall i :: 0 <= i < |ms| ==> Sendable(ms[i])
    ensures forall i :: 0 <= i < |ms[..n]| ==> Sendable(ms[..n][i])
    ensures forall i :: 0 <= i < |ms[n..]| ==> Sendable(ms[n..][i])
    ensures Wire(ms) == Wire(ms[..n]) + Wire(ms[n..])
    decreases |ms|
  {
    hide Sendable, Serialize;
    if n == 0 {
      assert ms[..0] == [] && ms[0..] == ms;
    } else {
      WireSplit(ms[1..], n - 1);
      assert ms[1..][..n - 1] == ms[..n][1..] && ms[1..][n - 1..] == ms[n..];
    }
  }

  /** What a stream of frames starts with. */
  lemma StreamStarts(ms: seq<Message>, cut: seq<Byte>)
    requires forall i :: 0 <= i < |ms| ==> Sendable(ms[i])
    requires NextFrame(cut) == Cut
    ensures NextFrame(Wire(ms) + cut) == if ms == [] then Cut else Frame(ms[0], Wire(ms[1..]) + cut)
  {
    if ms == [] {
      assert Wire(ms) + cut == cut;
    } else {
      assert Sendable(ms[0]);
      hide NextFrame, Serialize, ValidMessage, KeyedEntries;
      ThreeParts(Serialize(ms[0]).value, Wire(ms[1..]), cut);
      FrameFirst(ms[0], Wire(ms[1..]) + cut);
    }
  }

  /** On a stream of frames, a failed read leaves the next one on a frame boundary exactly when it took nothing. */
  lemma FailedReadBoundary(ms: seq<Message>, cut: seq<Byte>, gone: nat)
    requires forall i :: 0 <= i < |ms| ==> Sendable(ms[i])
    requires NextFrame(cut) == Cut && FailsAfter(Wire(ms) + cut, gone)
    ensures OnBoundary(ms, gone) <==> gone == 0
  {
    hide NextFrame, Sendable, Wire;
    StreamStarts(ms, cut);
    WireNone(ms);
    if n :| 0 < n <= |ms| && gone == |Wire(ms[..n])| {
      FrameBefore(ms, cut, n);
    }
  }

  lemma WireNone(ms: seq<Message>)
    ensures ms[..0] == [] && Wire([]) == []
  {
  }

  lemma FrameBefore(ms: seq<Message>, cut: seq<Byte>, n: nat)
    requires 0 < n <= |ms| && forall i :: 0 <= i < |ms| ==> Sendable(ms[i])
    ensures forall i :: 0 <= i < |ms[..n]| ==> Sendable(ms[..n][i])
    ensures |Wire(ms[..n])| <= |Wire(ms) + cut| && NextFrame((Wire(ms) + cut)[..|Wire(ms[..n])|]).Frame?
  {
    hide NextFrame, Sendable, Wire;
    EmptyIsCut();
    WireSplit(ms, n);
    assert (Wire(ms) + cut)[..|Wire(ms[..n])|] == Wire(ms[..n]) + [];
    StreamStarts(ms[..n], []);
  }

  lemma EmptyIsCut()
    ensures NextFrame([]) == Cut
  {
  }

  /**
   * Frames back to back, followed by a proper prefix of one more (or by
   * nothing), are read back as exactly those messages in order, and then the
   * stream is found closed mid-frame.
   */
  lemma {:induction false} StreamRoundTrip(ms: seq<Message>, cut: seq<Byte>)
    requires forall i :: 0 <= i < |ms| ==> Sendable(ms[i])
    requires NextFrame(cut) == Cut
    ensures ReadAll(Wire(ms) + cut) == (ms, Cut)
    decreases |ms|
  {
    hide NextFrame, Serialize;
    if ms == [] {
      assert Wire(ms) + cut == cut;
    } else {
      var rest := Wire(ms[1..]) + cut;
      assert Wire(ms) + cut == Serialize(ms[0]).value + rest;
      FrameFirst(ms[0], rest);
      StreamRoundTrip(ms[1..], cut);
      assert [ms[0]] + ms[1..] == ms;
    }
  }

  lemma {:induction false} WireAppend(ms: seq<Message>, m: Message)
    requires Sendable(m) && forall i :: 0 <= i < |ms| ==> Sendable(ms[i])
    ensures forall i :: 0 <= i < |ms + [m]| ==> Sendable((ms + [m])[i])
    ensures Wire(ms + [m]) == Wire(ms) + Serialize(m).value
    decreases |ms|
  {
    hide Serialize, ValidMessage, KeyedEntries;
    if ms == [] {
      assert ms + [m] == [m] && [m][1..] == [];
      assert Serialize(m).value + [] == [] + Serialize(m).value;
    } else {
      assert (ms + [m])[1..] == ms[1..] + [m];
      WireAppend(ms[1..], m);
      ThreeParts(Serialize(ms[0]).value, Wire(ms[1..]), Serialize(m).value);
    }
  }

  lemma ThreeParts(a: seq<Byte>, b: seq<Byte>, c: seq<Byte>)
    ensures a + (b + c) == a + b + c
  {
  }

  // ---------------------------------------------------- after a failed write

  /**
   * How many bytes of what follows a fragment of m's frame are read as a part
   * of it: up to a whole header while the payload length is not in the
   * fragment, and the missing rest of the frame when it is.
   */
  function Swallowed(m: Message, k: nat): int
    requires Sendable(m) && k < |Serialize(m).value|
  {
    if k == 0 then 0 else if k < 8 then HEADER_SIZE - k else |Serialize(m).value| - k
  }

  /** Where a read ends: with a message, or at bytes that are none. */
  predicate EndsAt(n: Next, rest: seq<Byte>) {
    (n.Frame? || n.Malformed?) && n.rest == rest
  }

  lemma SliceAcross(a: seq<Byte>, b: seq<Byte>, from: nat, to: nat)
    requires from <= to <= |a| + |b|
    ensures to <= |a| ==> (a + b)[from..to] == a[from..to]
    ensures from <= |a| <= to ==> (a + b)[from..to] == a[from..] + b[..to - |a|]
    ensures |a| <= to ==> (a + b)[to..] == b[to - |a|..]
  {
  }

  /** Four bytes of length of which the last ones are the first ones of a frame say more than 1 MiB. */
  lemma BogusLength(front: seq<Byte>)
    requires |front| < 4
    ensures Get(front + MAGIC[..4 - |front|]) > MAX_MESSAGE
  {
    var bytes := front + MAGIC[..4 - |front|];
    Powers();
    assert bytes[3] >= 0x31;
    FourBytes(bytes);
  }

  lemma FourBytes(b: seq<Byte>)
    requires |b| == 4
    ensures var top: int := b[3]; Get(b) >= top * 0x100_0000
  {
    assert b[1..][0] == b[1] && b[1..][1..][0] == b[2] && b[1..][1..][1..][0] == b[3];
    assert Get(b) == b[0] + 256 * Get(b[1..]);
    assert Get(b[1..]) == b[1] + 256 * Get(b[1..][1..]);
    assert Get(b[1..][1..]) == b[2] + 256 * Get(b[1..][1..][1..]);
    assert Get(b[1..][1..][1..]) == b[3] + 256 * Get(b[1..][1..][1..][1..]);
  }

  /** A fragment without the payload length: the header read is none, and 24 bytes are gone. */
  lemma ShortFragment(m: Message, k: nat, after: seq<Byte>)
    requires Sendable(m) && 0 < k < 8 && k < |Serialize(m).value| && |after| >= HEADER_SIZE && after[..4] == MAGIC
    ensures NextFrame(Serialize(m).value[..k] + after) == Malformed(after[HEADER_SIZE - k..])
  {
    var f := Serialize(m).value;
    var a := f[..k];
    var s := a + after;
    SerializedHeader(m);
    hide Serialize, Deserialize, Sendable, Get;
    SliceAcross(a, after, 0, HEADER_SIZE);
    if k < 4 {
      assert s[k] == after[0] == 0x43 && MAGIC[k] != 0x43;
    } else {
      assert s[..4] == f[..4];
      assert s[4..8] == f[4..k] + after[..8 - k] by { SliceAcross(a, after, 4, 8); }
      assert after[..8 - k] == MAGIC[..4 - (k - 4)];
      BogusLength(f[4..k]);
    }
  }

  /** A fragment with the payload length: what follows is taken for its rest. */
  lemma LongFragment(m: Message, k: nat, after: seq<Byte>)
    requires Sendable(m) && 8 <= k < |Serialize(m).value|
    ensures var n := NextFrame(Serialize(m).value[..k] + after);
      var need := |Serialize(m).value| - k;
      if |after| < need then n == Cut else EndsAt(n, after[need..])
  {
    var f := Serialize(m).value;
    SerializedHeader(m);
    hide Serialize, Deserialize, Sendable, Get;
    SliceAcross(f[..k], after, 0, 4);
    SliceAcross(f[..k], after, 4, 8);
    assert f[..k][0..4] == f[..4] && f[..k][4..8] == f[4..8];
    var s := f[..k] + after;
    assert s[..4] == s[0..4];
    if |after| >= |f| - k {
      SliceAcross(f[..k], after, 0, |f|);
    }
  }

  /**
   * A write that fails after k bytes of m's frame leaves the connection open.
   * What is sent next is read from its own start exactly if k is 0. Else the
   * reader takes the first bytes of it for the rest of m: it fails inside the
   * next frame if the payload length of m did not go out, and otherwise waits
   * for as many bytes as m still lacks and ends there, with a message or none.
   */
  lemma AfterFailedWrite(m: Message, k: nat, next: seq<Message>, cut: seq<Byte>)
    requires Sendable(m) && k < |Serialize(m).value|
    requires next != [] && forall i :: 0 <= i < |next| ==> Sendable(next[i])
    ensures var after := Wire(next) + cut;
      var n := NextFrame(Serialize(m).value[..k] + after);
      var gone := Swallowed(m, k);
      && (k == 0 ==> n == Frame(next[0], Wire(next[1..]) + cut))
      && (k > 0 ==> if |after| < gone then n == Cut else EndsAt(n, after[gone..]))
      && (0 < k < 8 ==> n.Malformed? && !OnBoundary(next, gone))
      && (gone == 0 <==> k == 0)
  {
    hide Serialize, NextFrame, ValidMessage, KeyedEntries, Wire, OnBoundary;
    var f, after := Serialize(m).value, Wire(next) + cut;
    WireStarts(next, cut);
    if k == 0 {
      assert f[..0] + after == after;
    } else if k < 8 {
      ShortFragment(m, k, after);
      InsideFirst(next, HEADER_SIZE - k);
    } else {
      LongFragment(m, k, after);
    }
  }

  lemma WireStarts(ms: seq<Message>, cut: seq<Byte>)
    requires ms != [] && forall i :: 0 <= i < |ms| ==> Sendable(ms[i])
    ensures var s := Wire(ms) + cut;
      |s| >= HEADER_SIZE && s[..4] == MAGIC && NextFrame(s) == Frame(ms[0], Wire(ms[1..]) + cut)
  {
    assert Sendable(ms[0]);
    SerializedHeader(ms[0]);
    hide Serialize, NextFrame, ValidMessage, KeyedEntries, PayloadSize, Get;
    ThreeParts(Serialize(ms[0]).value, Wire(ms[1..]), cut);
    FrameFirst(ms[0], Wire(ms[1..]) + cut);
  }

  lemma InsideFirst(ms: seq<Message>, at: nat)
    requires ms != [] && forall i :: 0 <= i < |ms| ==> Sendable(ms[i])
    requires 0 < at < HEADER_SIZE
    ensures !OnBoundary(ms, at)
  {
    SerializedHeader(ms[0]);
    hide Serialize, NextFrame, ValidMessage, KeyedEntries, PayloadSize;
    forall n | 0 <= n <= |ms|
      ensures |Wire(ms[..n])| == 0 || |Wire(ms[..n])| >= HEADER_SIZE
    {
      if n > 0 {
        assert ms[..n][0] == ms[0];
        assert Wire(ms[..n]) == Serialize(ms[0]).value + Wire(ms[..n][1..]);
      }
    }
  }

  /**
   * A message may carry another one's frame as a data value. 32 bytes into its
   * own frame, that is what a reader finds.
   */
  lemma Embedded(inner: Message) returns (outer: Message)
    requires Sendable(inner) && |Serialize(inner).value| + 32 <= MAX_MESSAGE
    ensures Sendable(outer)
    ensures var f := Serialize(outer).value;
      |f| == 32 + |Serialize(inner).value| && f[32..] == Serialize(inner).value && NextFrame(f[..32]) == Cut
  {
    var frame := Serialize(inner).value;
    var e := Entry([0x61], Data(frame));
    outer := Message([e], 0, false);
    OneEntry(e);
    CarriesFrame(frame);
    hide Serialize, NextFrame, EncodeEntry, EncodeEntries, PayloadSize;
    Assembled(outer, e, frame);
    PrefixIsCut(outer, 32);
  }

  lemma OneEntry(e: Entry)
    requires ValidEntry(e)
    ensures PayloadSize([e]) == EntrySize(e) && EncodeEntries([e]) == EncodeEntry(e)
  {
    hide EncodeEntry;
    assert [e][1..] == [];
    assert PayloadSize([e]) == EntrySize(e) + PayloadSize([]);
    assert EncodeEntries([e]) == EncodeEntry(e) + EncodeEntries([]);
  }

  lemma CarriesFrame(frame: seq<Byte>)
    requires |frame| <= MAX_MESSAGE
    ensures var e := Entry([0x61], Data(frame));
      && ValidEntry(e) && EntrySize(e) == 8 + |frame|
      && |EncodeEntry(e)| == 8 + |frame| && EncodeEntry(e)[8..] == frame
  {
    var front := Put(1, 2) + [0x61] + [6] + Put(|frame|, 4);
    assert EncodeEntry(Entry([0x61], Data(frame))) == front + frame;
  }

  lemma Assembled(m: Message, e: Entry, frame: seq<Byte>)
    requires m == Message([e], 0, false) && ValidEntry(e) && e.key != []
    requires PayloadSize([e]) == 8 + |frame| && 32 + |frame| <= MAX_MESSAGE
    requires EncodeEntries([e]) == EncodeEntry(e) && |EncodeEntry(e)| == 8 + |frame| && EncodeEntry(e)[8..] == frame
    ensures Sendable(m) && |Serialize(m).value| == 32 + |frame| && Serialize(m).value[32..] == frame
  {
    hide EncodeEntry, EncodeEntries, PayloadSize, ValidEntry;
    var header := Header(PayloadSize([e]), m);
    assert Serialize(m).value == header + EncodeEntry(e);
    assert (header + EncodeEntry(e))[32..] == EncodeEntry(e)[8..];
  }

  // ------------------------------------------------------------- the socket

  datatype Outcome = Bytes(n: nat) | Interrupted | Hangup | Failed

  datatype Wakeup = Ready | TimedOut | PollInterrupted | PollFailed

  /**
   * One end of a connected socket with the clock it is polled against.
   * `inbox` is every byte still to be delivered, after which the peer closes
   * if `closes`; `outbox` is every byte accepted so far. The operating
   * system's choices are arbitrary, except that it interrupts calls only
   * finitely often (`patience`) and, when not `faulty`, does not fail them.
   */
  class Socket {
    var inbox: seq<Byte>
    var outbox: seq<Byte>
    var closes: bool
    var faulty: bool
    var patience: nat
    var now: int

    /** send: takes some of the bytes. */
    method Send(data: seq<Byte>) returns (o: Outcome)
      requires data != []
      modifies this`outbox, this`patience
      ensures o.Bytes? ==> o.n <= |data| && outbox == old(outbox) + data[..o.n]
      ensures !o.Bytes? ==> outbox == old(outbox)
      ensures patience <= old(patience) && (o.Interrupted? ==> patience < old(patience))
      ensures !faulty ==> o.Interrupted? || (o.Bytes? && o.n > 0)
    {
      var kind: int := *;
      if kind == 0 && patience > 0 {
        patience := patience - 1;
        o := Interrupted;
      } else if kind == 1 && faulty {
        o := Hangup;
      } else if kind == 2 && faulty {
        o := Failed;
      } else if kind == 3 && faulty {
        o := Bytes(0);
        assert data[..0] == [];
      } else {
        var n :| 1 <= n <= |data|;
        outbox := outbox + data[..n];
        o := Bytes(n);
      }
    }

    /** poll for input, at most `waitMs` (-1: no limit). */
    method Poll(waitMs: int) returns (w: Wakeup)
      requires waitMs == -1 || waitMs > 0
      requires waitMs == -1 ==> inbox != [] || closes || faulty
      modifies this`now, this`patience
      ensures now >= old(now) && (waitMs > 0 ==> now <= old(now) + waitMs * NS_PER_MS)
      ensures w.TimedOut? ==> waitMs > 0 && now == old(now) + waitMs * NS_PER_MS
      ensures patience <= old(patience) && (w.PollInterrupted? ==> patience < old(patience))
      ensures w.Ready? ==> inbox != [] || closes
      ensures w.PollFailed? ==> faulty
    {
      var kind: int := *;
      var elapsed: int := *;
      if elapsed < 0 || (waitMs > 0 && elapsed > waitMs * NS_PER_MS) {
        elapsed := 0;
      }
      if kind == 0 && patience > 0 {
        patience := patience - 1;
        w := PollInterrupted;
      } else if (kind == 1 || (inbox == [] && !closes)) && faulty {
        w := PollFailed;
      } else if waitMs > 0 && (kind == 2 || (inbox == [] && !closes)) {
        elapsed := waitMs * NS_PER_MS;
        w := TimedOut;
      } else {
        w := Ready;
      }
      now := now + elapsed;
    }

    /** recv, after poll said there is something: some of the bytes, or 0 at the end. */
    method Recv(max: nat) returns (o: Outcome, data: seq<Byte>)
      requires max > 0 && (inbox != [] || closes)
      modifies this`inbox, this`patience
      ensures o.Bytes? ==> o.n == |data| <= max && old(inbox) == data + inbox
      ensures o.Bytes? ==> (o.n == 0 <==> old(inbox) == [])
      ensures !o.Bytes? ==> inbox == old(inbox) && data == []
      ensures patience <= old(patience) && (o.Interrupted? ==> patience < old(patience))
      ensures o.Hangup? || o.Failed? ==> faulty
    {
      var kind: int := *;
      data := [];
      if kind == 0 && patience > 0 {
        patience := patience - 1;
        o := Interrupted;
      } else if kind == 1 && faulty {
        o := Hangup;
      } else if kind == 2 && faulty {
        o := Failed;
      } else if inbox == [] {
        o := Bytes(0);
      } else {
        assert 1 <= 1 <= max && 1 <= |inbox|;
        var n :| 1 <= n <= max && n <= |inbox|;
        data := inbox[..n];
        inbox := inbox[n..];
        o := Bytes(n);
      }
    }
  }

  /** io_write_full. */
  method WriteFull(s: Socket, data: seq<Byte>) returns (rc: int)
    modifies s`outbox, s`patience
    ensures rc == SUCCESS ==> s.outbox == old(s.outbox) + data
    ensures rc != SUCCESS ==> exists k :: 0 <= k < |data| && s.outbox == old(s.outbox) + data[..k]
    ensures !s.faulty ==> rc == SUCCESS
    ensures rc == SUCCESS || rc == EIO || rc == ECLOSED
  {
    var sent := 0;
    assert old(s.outbox) + data[..0] == s.outbox;
    while sent < |data|
      invariant sent <= |data| && s.outbox == old(s.outbox) + data[..sent]
      decreases |data| - sent, s.patience
    {
      var o := s.Send(data[sent..]);
      match o {
        case Interrupted =>
        case Hangup => return ECLOSED;
        case Failed => return EIO;
        case Bytes(n) =>
          assert data[..sent] + data[sent..][..n] == data[..sent + n];
          if n == 0 {
            return ECLOSED;
          }
          sent := sent + n;
      }
    }
    assert data[..sent] == data;
    rc := SUCCESS;
  }

  /** A deadline is awaited, or the stream is known to end, so a read cannot block for ever. */
  ghost predicate Bounded(s: Socket, dl: Deadline)
    reads s
  {
    Normal(dl) && (dl.active || s.closes || s.faulty)
  }

  /** The deadline was set no later than now, by a timeout that fits an int. */
  predicate InRange(dl: Deadline, now: int) {
    dl.active ==> Instant(dl) <= now + INT_MAX * NS_PER_MS
  }

  /**
   * io_read_full: exactly `len` bytes, or an error. It never returns as much
   * as a millisecond after its deadline, nor times out as much as one before.
   */
  method ReadFull(s: Socket, len: nat, dl: Deadline) returns (rc: int, data: seq<Byte>)
    requires Bounded(s, dl) && InRange(dl, s.now)
    modifies s`inbox, s`patience, s`now
    ensures old(s.inbox) == data + s.inbox && (rc == SUCCESS <==> |data| == len) && |data| <= len
    ensures rc == ECLOSED && !s.faulty ==> s.inbox == [] && s.closes
    ensures rc == EIO ==> s.faulty
    ensures !s.faulty && !dl.active ==> rc == (if |old(s.inbox)| >= len then SUCCESS else ECLOSED)
    ensures rc == SUCCESS || rc == EIO || rc == ECLOSED || rc == ETIMEOUT
    ensures s.now >= old(s.now)
    ensures dl.active ==> s.now == old(s.now) || s.now < Instant(dl) + NS_PER_MS
    ensures rc == ETIMEOUT ==> dl.active && s.now > Instant(dl) - NS_PER_MS
  {
    data := [];
    assert old(s.inbox) == data + s.inbox;
    while |data| < len
      invariant |data| <= len && old(s.inbox) == data + s.inbox
      invariant s.now >= old(s.now) && InRange(dl, s.now)
      invariant dl.active ==> s.now == old(s.now) || s.now < Instant(dl) + NS_PER_MS
      decreases len - |data|, s.patience
    {
      if dl.active {
        RemainingIsTwoSided(dl, s.now);
      }
      var waitMs := RemainingMs(dl, s.now);
      if waitMs == -2 {
        return ETIMEOUT, data;
      }
      var w := s.Poll(waitMs);
      match w {
        case PollInterrupted => continue;
        case PollFailed => return EIO, data;
        case TimedOut => return ETIMEOUT, data;
        case Ready =>
      }
      var o, chunk := s.Recv(len - |data|);
      match o {
        case Interrupted =>
        case Hangup => return ECLOSED, data;
        case Failed => return EIO, data;
        case Bytes(n) =>
          if n == 0 {
            return ECLOSED, data;
          }
          assert data + (chunk + s.inbox) == data + chunk + s.inbox;
          data := data + chunk;
      }
    }
    rc := SUCCESS;
  }

  /**
   * frame_read: one message, with the stream left exactly at the end of its
   * frame; or an error, with `gone` bytes dropped from the stream.
   */
  method FrameRead(s: Socket, dl: Deadline) returns (rc: int, m: Option<Message>, ghost gone: nat)
    requires Bounded(s, dl) && InRange(dl, s.now)
    modifies s`inbox, s`patience, s`now
    ensures rc == SUCCESS <==> m.Some?
    ensures rc == SUCCESS ==> NextFrame(old(s.inbox)) == Frame(m.value, s.inbox)
    ensures gone <= |old(s.inbox)| && s.inbox == old(s.inbox)[gone..]
    ensures rc == EPROTO ==> NextFrame(old(s.inbox)) == Malformed(s.inbox)
    ensures rc == EIO || rc == ECLOSED || rc == ETIMEOUT ==> NextFrame(old(s.inbox)[..gone]) == Cut
    ensures rc != SUCCESS ==> FailsAfter(old(s.inbox), gone)
    ensures rc == ECLOSED && !s.faulty ==> NextFrame(old(s.inbox)) == Cut && s.inbox == []
    ensures rc in {SUCCESS, EIO, ETIMEOUT, ECLOSED, EPROTO}
    ensures !s.faulty && !dl.active ==> rc == match NextFrame(old(s.inbox))
                                              case Frame(_, _) => SUCCESS
                                              case Cut => ECLOSED
                                              case Malformed(_) => EPROTO
    ensures s.now >= old(s.now)
    ensures dl.active ==> s.now == old(s.now) || s.now < Instant(dl) + NS_PER_MS
    ensures rc == ETIMEOUT ==> dl.active && s.now > Instant(dl) - NS_PER_MS
  {
    m := None;
    var header, body;
    ghost var all := old(s.inbox);
    rc, header := ReadFull(s, HEADER_SIZE, dl);
    gone := |header|;
    assert all[..gone] == header && all[gone..] == s.inbox;
    if rc != SUCCESS {
      return;
    }
    assert all[..4] == header[..4] && all[4..8] == header[4..8];
    if header[..4] != MAGIC {
      return EPROTO, None, gone;
    }
    var payload := Get(header[4..8]);
    if payload + HEADER_SIZE > MAX_MESSAGE {
      return EPROTO, None, gone;
    }
    body := [];
    if payload > 0 {
      rc, body := ReadFull(s, payload, dl);
      gone := HEADER_SIZE + |body|;
      assert all == header + body + s.inbox;
      assert all[..gone] == header + body && all[gone..] == s.inbox;
      if rc != SUCCESS {
        assert all[..gone][..4] == MAGIC && all[..gone][4..8] == header[4..8];
        return;
      }
    }
    assert all == header + body + s.inbox;
    assert all[..HEADER_SIZE + payload] == header + body && all[HEADER_SIZE + payload..] == s.inbox;
    m := Deserialize(header + body);
    rc := if m.None? then EPROTO else SUCCESS;
  }

  /** What reading everything gives, one frame further. */
  lemma ReadOneMore(s: seq<Byte>, received: seq<Message>)
    ensures match NextFrame(s)
      case Frame(m, rest) =>
        |rest| < |s| && ReadAll(s).1 == ReadAll(rest).1 && received + ReadAll(s).0 == received + [m] + ReadAll(rest).0
      case other => ReadAll(s) == ([], other) && received + ReadAll(s).0 == received
  {
    hide NextFrame;
    match NextFrame(s)
    case Frame(m, rest) =>
      assert ReadAll(s).0 == [m] + ReadAll(rest).0;
      assert received + ([m] + ReadAll(rest).0) == received + [m] + ReadAll(rest).0;
    case _ =>
  }

  /**
   * Reading to the end of a stream that closes: exactly the messages that
   * were sent whole, in order, then ECLOSED at the cut.
   */
  method ReadUntilClosed(s: Socket, ghost ms: seq<Message>, ghost cut: seq<Byte>)
    returns (received: seq<Message>, rc: int)
    requires s.closes && !s.faulty
    requires forall i :: 0 <= i < |ms| ==> Sendable(ms[i])
    requires NextFrame(cut) == Cut && s.inbox == Wire(ms) + cut
    modifies s`inbox, s`patience, s`now
    ensures received == ms && rc == ECLOSED
  {
    hide NextFrame, Serialize, ReadAll, Wire;
    received := [];
    StreamRoundTrip(ms, cut);
    var dl := SetDeadline(s.now, -1);
    assert [] + ms == ms;
    while true
      invariant received + ReadAll(s.inbox).0 == ms && ReadAll(s.inbox).1 == Cut
      decreases |s.inbox|
    {
      ReadOneMore(s.inbox, received);
      var m;
      ghost var gone;
      rc, m, gone := FrameRead(s, dl);
      if rc != SUCCESS {
        return;
      }
      received := received + [m.value];
    }
  }

  /** send_locked: the entries under an id and a reply flag; a write that fails leaves a part of the frame. */
  method SendLocked(s: Socket, entries: seq<Entry>, id: nat, isReply: bool) returns (rc: int)
    requires ValidMessage(Message(entries, id, isReply))
    modifies s`outbox, s`patience
    ensures var frame := Serialize(Message(entries, id, isReply));
      && (rc == EPROTO <==> frame == None)
      && (frame == None ==> s.outbox == old(s.outbox))
      && (rc == SUCCESS ==> s.outbox == old(s.outbox) + frame.value)
      && (frame.Some? && rc != SUCCESS ==>
            exists k :: 0 <= k < |frame.value| && s.outbox == old(s.outbox) + frame.value[..k])
      && (frame.Some? && !s.faulty ==> rc == SUCCESS)
  {
    var frame := Serialize(Message(entries, id, isReply));
    if frame == None {
      return EPROTO;
    }
    hide Serialize;
    rc := WriteFull(s, frame.value);
  }

  /** The sending side: each whole frame is appended to the stream. */
  method SendAll(s: Socket, ms: seq<Message>)
    requires !s.faulty && s.outbox == [] && forall i :: 0 <= i < |ms| ==> Sendable(ms[i])
    modifies s`outbox, s`patience
    ensures s.outbox == Wire(ms)
  {
    var i := 0;
    while i < |ms|
      invariant i <= |ms| && s.outbox == Wire(ms[..i])
    {
      var rc := SendLocked(s, ms[i].entries, ms[i].id, ms[i].isReply);
      WireAppend(ms[..i], ms[i]);
      assert ms[..i] + [ms[i]] == ms[..i + 1];
      i := i + 1;
    }
    assert ms[..i] == ms;
  }
}
