/**
 * Two promises of the connection and how far they hold: that receive hands
 * out only messages no pending reply wait claims, and that what is handed out
 * was sent.
 */
module XpcClaims {
  import opened Common
  import opened XpcPending
  import opened XpcWire
  import opened XpcStream
  import opened XpcCorrelation

  // ---------------------------------------------- replies somebody waits for

  predicate InSync(pc: Pc) {
    pc.SyncTake? || pc.SyncWait? || pc.SyncRead? || pc.SyncKeep?
  }

  predicate Awaits(pc: Pc, id: nat) {
    InSync(pc) && pc.id == id
  }

  /** The message is a reply, and some sync call in progress sent the request with its id. */
  predicate Claimed(s: State, p: Pending) {
    p.isReply && exists i :: 0 <= i < |s.threads| && Awaits(s.threads[i], p.id)
  }

  /** The next step of a receive call, and the message it would return. */
  function Offered(s: State, a: Action): Option<Pending>
    requires Enabled(s, a)
  {
    match a
    case BeginReceive(_) => if s.queue == [] then None else Some(s.queue[0])
    case Continue(i) =>
      (match s.threads[i]
       case RecvCheck => if s.queue == [] then None else Some(s.queue[0])
       case RecvRead => Some(FrameAt(Read(s), |s.taken|))
       case _ => None)
    case _ => None
  }

  /** A receive call returned a message that a sync call was waiting for. */
  predicate BreaksClaim(s: State, s': State) {
    && |s'.delivered| > |s.delivered|
    && s'.delivered[|s.delivered|].wanted.None?
    && Claimed(s, s'.delivered[|s.delivered|].got)
  }

  predicate SyncInFlight(s: State) {
    exists i :: 0 <= i < |s.threads| && InSync(s.threads[i])
  }

  /**
   * A step hands a receive call a reply that a sync call waits for exactly when
   * that reply is what the step finds: the head of the queue, or the frame that
   * comes next. Nothing is looked at but its position; so only a caller that
   * has no sync call in progress is safe.
   */
  lemma ReceiveBreaksClaim(s: State, a: Action)
    requires Enabled(s, a)
    ensures BreaksClaim(s, Step(s, a)) <==> Offered(s, a).Some? && Claimed(s, Offered(s, a).value)
    ensures BreaksClaim(s, Step(s, a)) ==> SyncInFlight(s)
  {
    hide NextFrame, Readable, Read, FailsAfter;
  }

  /** No step of the run breaks a claim. */
  predicate ClaimsKept(s: State, run: seq<Action>)
    requires LegalRun(s, run)
    decreases |run|
  {
    run == [] || (!BreaksClaim(s, Step(s, run[0])) && ClaimsKept(Step(s, run[0]), run[1..]))
  }

  /** Receive calls return only while no sync call is in progress. */
  predicate Serialized(s: State, run: seq<Action>)
    requires LegalRun(s, run)
    decreases |run|
  {
    run == [] || ((Offered(s, run[0]).Some? ==> !SyncInFlight(s)) && Serialized(Step(s, run[0]), run[1..]))
  }

  /** What a caller can do: claims are kept in every run whose receive calls do not overlap sync calls. */
  lemma {:induction false} SerializedKeepsClaims(s: State, run: seq<Action>)
    requires LegalRun(s, run) && Serialized(s, run)
    ensures ClaimsKept(s, run)
    decreases |run|
  {
    if run != [] {
      ReceiveBreaksClaim(s, run[0]);
      hide Step, Enabled, Offered, SyncInFlight, Claimed;
      SerializedKeepsClaims(Step(s, run[0]), run[1..]);
    }
  }

  /** In particular in every run of a single thread. */
  lemma {:induction false} OneThreadKeepsClaims(s: State, run: seq<Action>)
    requires LegalRun(s, run) && |s.threads| == 1
    ensures ClaimsKept(s, run)
    decreases |run|
  {
    if run != [] {
      OneThreadStep(s, run[0]);
      hide Enabled, Step, BreaksClaim;
      OneThreadKeepsClaims(Step(s, run[0]), run[1..]);
    }
  }

  lemma OneThreadStep(s: State, a: Action)
    requires Enabled(s, a) && |s.threads| == 1
    ensures !BreaksClaim(s, Step(s, a)) && |Step(s, a).threads| == 1
  {
    ReceiveBreaksClaim(s, a);
    hide NextFrame, Readable, Read, FailsAfter, BreaksClaim, ReplyIndex;
  }

  // ------------------------------------------------- when a receive steals

  /** What a receive call finds when it is made, if nobody else moves. */
  function Found(s: State): Option<Pending> {
    if s.queue != [] then Some(s.queue[0])
    else if s.readLock.None? && Readable(s) then Some(FrameAt(Read(s), |s.taken|))
    else None
  }

  /** The steps of a receive call that nobody interrupts. */
  function ReceiveAlone(s: State, j: nat): seq<Action> {
    if s.queue != [] then [BeginReceive(j)] else [BeginReceive(j), Continue(j), Continue(j), Continue(j)]
  }

  lemma {:induction false} QuietStart(s: State, a: Action, rest: seq<Action>)
    requires Enabled(s, a) && !BreaksClaim(s, Step(s, a)) && LegalRun(Step(s, a), rest)
    ensures LegalRun(s, [a] + rest) && After(s, [a] + rest) == After(Step(s, a), rest)
    ensures ClaimsKept(s, [a] + rest) <==> ClaimsKept(Step(s, a), rest)
  {
    assert ([a] + rest)[1..] == rest && ([a] + rest)[0] == a;
    hide Enabled, Step, BreaksClaim;
  }

  lemma {:induction false} LastStep(s: State, a: Action)
    requires Enabled(s, a)
    ensures LegalRun(s, [a]) && After(s, [a]) == Step(s, a)
    ensures ClaimsKept(s, [a]) <==> !BreaksClaim(s, Step(s, a))
  {
    hide Enabled, Step, BreaksClaim;
    assert [a][1..] == [];
    assert LegalRun(Step(s, a), []) && ClaimsKept(Step(s, a), []);
  }

  /** The socket half: thread j takes the read lock, finds the queue empty again, and reads. */
  lemma ReadsAlone(s: State, j: nat)
    requires j < |s.threads| && s.threads[j].Idle? && s.queue == [] && Found(s).Some?
    ensures LegalRun(s, ReceiveAlone(s, j))
    ensures After(s, ReceiveAlone(s, j)).delivered == s.delivered + [Delivery(None, Found(s).value)]
    ensures ClaimsKept(s, ReceiveAlone(s, j)) <==> !Claimed(s, Found(s).value)
  {
    var s1 := s.(threads := s.threads[j := RecvWait]);
    var s2 := s1.(threads := s.threads[j := RecvCheck], readLock := Some(j));
    var s3 := s2.(threads := s.threads[j := RecvRead]);
    Call(s, j, s1);
    Lock(s1, j, s2);
    Proceed(s2, j, s3);
    SameClaims(s, s3, j, Found(s).value);
    ReadsNext(s, s3, j);
    hide Enabled, Step, Claimed, Found, Readable, Read, LegalRun, After, ClaimsKept, BreaksClaim;
    ReceiveBreaksClaim(s3, Continue(j));
    LastStep(s3, Continue(j));
    Silent(s, s1);
    Silent(s1, s2);
    Silent(s2, s3);
    QuietStart(s2, Continue(j), [Continue(j)]);
    QuietStart(s1, Continue(j), [Continue(j)] + [Continue(j)]);
    QuietStart(s, BeginReceive(j), [Continue(j)] + ([Continue(j)] + [Continue(j)]));
    assert ReceiveAlone(s, j) == [BeginReceive(j)] + ([Continue(j)] + ([Continue(j)] + [Continue(j)]));
  }

  lemma Silent(s: State, s': State)
    requires s'.delivered == s.delivered
    ensures !BreaksClaim(s, s')
  {
  }

  /** Nothing but thread j has moved, and it waits for no reply. */
  lemma SameClaims(s: State, s': State, j: nat, p: Pending)
    requires j < |s.threads| == |s'.threads| && !InSync(s.threads[j]) && !InSync(s'.threads[j])
    requires s'.threads == s.threads[j := s'.threads[j]]
    ensures Claimed(s, p) <==> Claimed(s', p)
  {
    if i :| 0 <= i < |s.threads| && Awaits(s.threads[i], p.id) {
      assert Awaits(s'.threads[i], p.id);
    }
    if i :| 0 <= i < |s.threads| && Awaits(s'.threads[i], p.id) {
      assert Awaits(s.threads[i], p.id);
    }
  }

  lemma ReadsNext(s: State, s3: State, j: nat)
    requires s.queue == [] && Found(s).Some? && j < |s.threads|
    requires s3 == s.(threads := s.threads[j := RecvRead], readLock := Some(j))
    ensures Enabled(s3, Continue(j)) && Offered(s3, Continue(j)) == Found(s)
    ensures Step(s3, Continue(j)).delivered == s.delivered + [Delivery(None, Found(s).value)]
  {
    hide NextFrame;
  }

  lemma PopsAlone(s: State, j: nat)
    requires j < |s.threads| && s.threads[j].Idle? && s.queue != []
    ensures LegalRun(s, ReceiveAlone(s, j))
    ensures After(s, ReceiveAlone(s, j)).delivered == s.delivered + [Delivery(None, Found(s).value)]
    ensures ClaimsKept(s, ReceiveAlone(s, j)) <==> !Claimed(s, Found(s).value)
  {
    LastStep(s, BeginReceive(j));
    ReceiveBreaksClaim(s, BeginReceive(j));
    hide Claimed, BreaksClaim, LegalRun, After, ClaimsKept;
  }

  /**
   * In every state, a receive call that is made and left alone returns the head
   * of the queue, or else the next frame; and it takes a reply from the sync
   * call that waits for it exactly when that is such a reply. So whenever one
   * is first in line while its addressee is still on its way to it, another
   * thread's receive can take it.
   */
  lemma ReceiveCanSteal(s: State, j: nat)
    requires j < |s.threads| && s.threads[j].Idle? && Found(s).Some?
    ensures LegalRun(s, ReceiveAlone(s, j))
    ensures After(s, ReceiveAlone(s, j)).delivered == s.delivered + [Delivery(None, Found(s).value)]
    ensures ClaimsKept(s, ReceiveAlone(s, j)) <==> !Claimed(s, Found(s).value)
  {
    if s.queue == [] {
      ReadsAlone(s, j);
    } else {
      PopsAlone(s, j);
    }
  }

  // ------------------------------------------------------------ runs that do

  predicate Goes(s: State, a: Action, s': State) {
    Enabled(s, a) && s' == Step(s, a)
  }

  /** The states a run goes through. */
  predicate Through(states: seq<State>, run: seq<Action>) {
    |states| == |run| + 1 && forall k :: 0 <= k < |run| ==> Goes(states[k], run[k], states[k + 1])
  }

  lemma {:induction false} RunThrough(states: seq<State>, run: seq<Action>)
    requires Through(states, run)
    ensures LegalRun(states[0], run) && After(states[0], run) == states[|run|]
    ensures forall k :: 0 <= k < |run| && BreaksClaim(states[k], states[k + 1]) ==> !ClaimsKept(states[0], run)
    decreases |run|
  {
    hide Enabled, Step, BreaksClaim;
    if run != [] {
      var rest := states[1..];
      assert forall k :: 0 <= k < |rest| ==> rest[k] == states[k + 1];
      RunThrough(rest, run[1..]);
      assert run == [run[0]] + run[1..];
      assert Goes(states[0], run[0], states[1]);
    }
  }

  lemma BreaksIn(states: seq<State>, run: seq<Action>, k: nat)
    requires Through(states, run) && k < |run| && BreaksClaim(states[k], states[k + 1])
    ensures LegalRun(states[0], run) && After(states[0], run) == states[|run|] && !ClaimsKept(states[0], run)
  {
    RunThrough(states, run);
  }

  lemma Begin(s: State, i: nat, s': State)
    requires i < |s.threads| && s.threads[i].Idle?
    requires s'.threads == s.threads[i := SyncTake(s.nextId)] && s'.issued == s.issued + [s.nextId]
    requires s' == s.(threads := s'.threads, nextId := s.nextId + 1, issued := s'.issued)
    ensures Goes(s, BeginSync(i, true), s')
  {
  }

  lemma Call(s: State, i: nat, s': State)
    requires i < |s.threads| && s.threads[i].Idle? && s.queue == []
    requires s'.threads == s.threads[i := RecvWait] && s' == s.(threads := s'.threads)
    ensures Goes(s, BeginReceive(i), s')
  {
  }

  lemma Proceed(s: State, i: nat, s': State)
    requires i < |s.threads| && (s.threads[i].SyncTake? || s.threads[i].RecvCheck?) && s.queue == []
    requires s'.threads == s.threads[i := if s.threads[i].RecvCheck? then RecvRead else SyncWait(s.threads[i].id)]
    requires s' == s.(threads := s'.threads)
    ensures Goes(s, Continue(i), s')
  {
  }

  lemma Lock(s: State, i: nat, s': State)
    requires i < |s.threads| && (s.threads[i].SyncWait? || s.threads[i].RecvWait?) && s.readLock.None?
    requires s'.threads == s.threads[i := if s.threads[i].RecvWait? then RecvCheck else SyncRead(s.threads[i].id)]
    requires s' == s.(threads := s'.threads, readLock := Some(i))
    ensures Goes(s, Continue(i), s')
  {
  }

  /** The stream from there on is the frame of m. */
  predicate At(stream: seq<Byte>, pos: nat, m: Message) {
    Sendable(m) && pos <= |stream| && stream[pos..] == Serialize(m).value
  }

  lemma ReadAt(s: State, m: Message)
    requires At(s.stream, s.pos, m)
    ensures Readable(s) && Read(s) == s.(pos := |s.stream|, taken := s.taken + [m])
  {
    FrameFirst(m, []);
    assert s.stream[s.pos..] == Serialize(m).value + [];
    hide Serialize, NextFrame, Sendable;
  }

  lemma Receive(s: State, i: nat, m: Message, s': State)
    requires i < |s.threads| && s.threads[i].RecvRead? && At(s.stream, s.pos, m)
    requires s'.threads == s.threads[i := Idle] && s'.taken == s.taken + [m]
    requires s'.delivered == s.delivered + [Delivery(None, Pending(m.id, m.isReply, |s.taken|))]
    requires s' == s.(pos := |s.stream|, taken := s'.taken, readLock := None, threads := s'.threads,
                      delivered := s'.delivered)
    ensures Goes(s, Continue(i), s')
  {
    ReadAt(s, m);
    hide Read, Readable, At;
  }

  lemma Keep(s: State, i: nat, m: Message, s': State)
    requires i < |s.threads| && s.threads[i].SyncRead? && At(s.stream, s.pos, m) && m.id != s.threads[i].id
    requires s'.threads == s.threads[i := SyncKeep(s.threads[i].id, Pending(m.id, m.isReply, |s.taken|))]
    requires s'.taken == s.taken + [m]
    requires s' == s.(pos := |s.stream|, taken := s'.taken, readLock := None, threads := s'.threads)
    ensures Goes(s, Continue(i), s')
  {
    ReadAt(s, m);
    hide Read, Readable, At;
  }

  lemma Queue(s: State, i: nat, s': State)
    requires i < |s.threads| && s.threads[i].SyncKeep?
    requires s'.threads == s.threads[i := SyncTake(s.threads[i].id)] && s'.queue == s.queue + [s.threads[i].held]
    requires s' == s.(threads := s'.threads, queue := s'.queue)
    ensures Goes(s, Continue(i), s')
  {
  }

  lemma Pop(s: State, i: nat, s': State)
    requires i < |s.threads| && s.threads[i].Idle? && s.queue != []
    requires s'.queue == s.queue[1..] && s'.delivered == s.delivered + [Delivery(None, s.queue[0])]
    requires s' == s.(queue := s'.queue, delivered := s'.delivered)
    ensures Goes(s, BeginReceive(i), s')
  {
    assert s.threads[i := Idle] == s.threads;
  }

  lemma Lose(s: State, i: nat, gone: nat, s': State)
    requires i < |s.threads| && s.threads[i].RecvRead? && MayLose(s.stream, s.pos, gone)
    requires s'.threads == s.threads[i := Idle]
    requires s' == s.(threads := s'.threads, readLock := None, pos := s.pos + gone, lost := s.lost + gone)
    ensures Goes(s, Fail(i, gone), s')
  {
  }

  lemma Breaks(s: State, s': State, i: nat)
    requires i < |s.threads|
    requires |s'.delivered| == |s.delivered| + 1
    requires var d := s'.delivered[|s.delivered|];
      d.wanted.None? && d.got.isReply && Awaits(s.threads[i], d.got.id)
    ensures BreaksClaim(s, s')
  {
  }

  /** A reply read by one thread's receive while its addressee, another thread, waits for the read lock. */
  lemma StolenFromSocket(s0: State, reply: Message) returns (run: seq<Action>)
    requires Init(s0) && s0.threads == [Idle, Idle] && At(s0.stream, 0, reply) && reply.isReply && reply.id == 1
    ensures LegalRun(s0, run) && !ClaimsKept(s0, run)
    ensures var e := After(s0, run);
      && e.threads == [SyncWait(1), Idle] && e.pos == |e.stream|
      && e.delivered == [Delivery(None, Pending(1, true, 0))]
  {
    hide At, BreaksClaim, ClaimsKept, Goes, Enabled, Step, After, LegalRun;
    run := [BeginSync(0, true), Continue(0), BeginReceive(1), Continue(1), Continue(1), Continue(1)];
    var s1 := s0.(threads := [SyncTake(1), Idle], nextId := 2, issued := [1]);
    Begin(s0, 0, s1);
    var s2 := s1.(threads := [SyncWait(1), Idle]);
    Proceed(s1, 0, s2);
    var s3 := s2.(threads := [SyncWait(1), RecvWait]);
    Call(s2, 1, s3);
    var s4 := s3.(threads := [SyncWait(1), RecvCheck], readLock := Some(1));
    Lock(s3, 1, s4);
    var s5 := s4.(threads := [SyncWait(1), RecvRead]);
    Proceed(s4, 1, s5);
    var got := Pending(1, true, 0);
    var s6 := s5.(threads := [SyncWait(1), Idle], pos := |s0.stream|, taken := [reply], readLock := None,
                  delivered := [Delivery(None, got)]);
    Receive(s5, 1, reply, s6);
    Breaks(s5, s6, 0);
    BreaksIn([s0, s1, s2, s3, s4, s5, s6], run, 5);
  }

  /**
   * And one that a second sync call read and queued while its addressee waited
   * for the read lock: a third thread's receive takes it from the queue.
   */
  lemma StolenFromQueue(s0: State, reply: Message) returns (run: seq<Action>)
    requires Init(s0) && s0.threads == [Idle, Idle, Idle] && At(s0.stream, 0, reply) && reply.isReply && reply.id == 1
    ensures LegalRun(s0, run) && !ClaimsKept(s0, run)
    ensures var e := After(s0, run);
      && e.threads == [SyncWait(1), SyncTake(2), Idle] && e.pos == |e.stream|
      && e.delivered == [Delivery(None, Pending(1, true, 0))]
  {
    hide At, BreaksClaim, ClaimsKept, Goes, Enabled, Step, After, LegalRun;
    run := [BeginSync(0, true), Continue(0), BeginSync(1, true), Continue(1), Continue(1), Continue(1), Continue(1),
            BeginReceive(2)];
    var s1 := s0.(threads := [SyncTake(1), Idle, Idle], nextId := 2, issued := [1]);
    Begin(s0, 0, s1);
    var s2 := s1.(threads := [SyncWait(1), Idle, Idle]);
    Proceed(s1, 0, s2);
    var s3 := s2.(threads := [SyncWait(1), SyncTake(2), Idle], nextId := 3, issued := [1, 2]);
    Begin(s2, 1, s3);
    var s4 := s3.(threads := [SyncWait(1), SyncWait(2), Idle]);
    Proceed(s3, 1, s4);
    var s5 := s4.(threads := [SyncWait(1), SyncRead(2), Idle], readLock := Some(1));
    Lock(s4, 1, s5);
    var got := Pending(1, true, 0);
    var s6 := s5.(threads := [SyncWait(1), SyncKeep(2, got), Idle], pos := |s0.stream|, taken := [reply],
                  readLock := None);
    Keep(s5, 1, reply, s6);
    var s7 := s6.(threads := [SyncWait(1), SyncTake(2), Idle], queue := [got]);
    Queue(s6, 1, s7);
    var s8 := s7.(queue := [], delivered := [Delivery(None, got)]);
    Pop(s7, 2, s8);
    Breaks(s7, s8, 0);
    BreaksIn([s0, s1, s2, s3, s4, s5, s6, s7, s8], run, 7);
  }

  /** One thread's receive: what it goes through on an empty queue, up to the read. */
  lemma Receiving(s: State) returns (s1: State, s2: State, s3: State)
    requires s.threads == [Idle] && s.queue == [] && s.readLock.None?
    ensures Goes(s, BeginReceive(0), s1) && Goes(s1, Continue(0), s2) && Goes(s2, Continue(0), s3)
    ensures s3 == s.(threads := [RecvRead], readLock := Some(0))
  {
    hide Goes;
    s1 := s.(threads := [RecvWait]);
    Call(s, 0, s1);
    s2 := s1.(threads := [RecvCheck], readLock := Some(0));
    Lock(s1, 0, s2);
    s3 := s2.(threads := [RecvRead]);
    Proceed(s2, 0, s3);
  }

  /** A receive that gives up after 32 bytes, and another one: it returns the message whose frame begins there. */
  lemma ReadsFromTheMiddle(s0: State, inner: Message) returns (run: seq<Action>)
    requires Init(s0) && s0.threads == [Idle] && MayLose(s0.stream, 0, 32) && At(s0.stream, 32, inner)
    ensures LegalRun(s0, run) && !NothingLost(run)
    ensures var e := After(s0, run);
      e.taken == [inner] && e.delivered == [Delivery(None, Pending(inner.id, inner.isReply, 0))]
  {
    hide At, MayLose, Goes, Enabled, Step, After, LegalRun;
    var s1, s2, s3 := Receiving(s0);
    var s4 := s3.(threads := [Idle], readLock := None, pos := 32, lost := 32);
    Lose(s3, 0, 32, s4);
    run := [BeginReceive(0), Continue(0), Continue(0), Fail(0, 32), BeginReceive(0), Continue(0), Continue(0),
            Continue(0)];
    var s5, s6, s7 := Receiving(s4);
    var s8 := s7.(threads := [Idle], pos := |s0.stream|, taken := [inner], readLock := None,
                  delivered := [Delivery(None, Pending(inner.id, inner.isReply, 0))]);
    Receive(s7, 0, inner, s8);
    RunThrough([s0, s1, s2, s3, s4, s5, s6, s7, s8], run);
    assert !NothingLost(run) by { assert run[3].gone == 32; }
  }

  /**
   * A read that times out inside a frame drops what it took, and the next one
   * starts there. If the frame's value is another frame, that is handed out:
   * one message was sent, and another one is received.
   */
  lemma OutOfStep(s: State, inner: Message) returns (outer: Message, s0: State, run: seq<Action>)
    requires Init(s) && s.threads == [Idle]
    requires Sendable(inner) && |Serialize(inner).value| + 32 <= MAX_MESSAGE
    ensures Sendable(outer) && outer != inner
    ensures s0 == s.(stream := Serialize(outer).value) && Sent(s0.stream, [outer], [])
    ensures LegalRun(s0, run) && !NothingLost(run)
    ensures After(s0, run).delivered == [Delivery(None, Pending(inner.id, inner.isReply, 0))]
    ensures After(s0, run).taken == [inner] && !InStep(After(s0, run), [outer])
  {
    outer := Embedded(inner);
    s0 := s.(stream := Serialize(outer).value);
    OnlySent(outer);
    assert s0.stream[0..] == s0.stream && s0.stream[32..] == Serialize(inner).value;
    assert MayLose(s0.stream, 0, 32) && At(s0.stream, 32, inner);
    hide Serialize, Sendable, MayLose, At, Sent, After, LegalRun;
    run := ReadsFromTheMiddle(s0, inner);
    InStepIffNothingLost(s0, run, [outer], []);
  }

  lemma OnlySent(m: Message)
    requires Sendable(m)
    ensures Sent(Serialize(m).value, [m], [])
  {
    EmptyIsCut();
    assert [m][1..] == [] && Wire([]) == [];
    assert Serialize(m).value + [] == Serialize(m).value;
    hide Serialize, NextFrame, ValidMessage, KeyedEntries;
    assert Wire([m]) == Serialize(m).value + Wire([]);
  }
}
