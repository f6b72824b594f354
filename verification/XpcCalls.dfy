/**
 * What a sync call may rely on: the id it waits for is its own, in every
 * interleaving, and a call that is left alone comes back with its reply.
 */
module XpcCalls {
  import opened Common
  import opened XpcPending
  import opened XpcWire
  import opened XpcStream
  import opened XpcCorrelation
  import opened XpcClaims

  // ------------------------------------------------------- one call for an id

  function Waiting(id: nat): Pc -> nat {
    (pc: Pc) => if Awaits(pc, id) then 1 else 0
  }

  function Answered(id: nat): Delivery -> nat {
    (d: Delivery) => if d.wanted == Some(id) then 1 else 0
  }

  /** How many calls wait for the id or were given a reply to it. */
  function Callers(s: State, id: nat): nat {
    SumBy(s.threads, Waiting(id)) + SumBy(s.delivered, Answered(id))
  }

  lemma MovedOn(s: State, i: nat, pc: Pc, s': State, id: nat)
    requires i < |s.threads| && s'.threads == s.threads[i := pc] && s'.delivered == s.delivered
    ensures Callers(s', id) + Waiting(id)(s.threads[i]) == Callers(s, id) + Waiting(id)(pc)
  {
    SumByUpdate(s.threads, Waiting(id), i, pc);
  }

  lemma Returned(s: State, i: nat, d: Delivery, s': State, id: nat)
    requires i < |s.threads| && s'.threads == s.threads[i := Idle] && s'.delivered == s.delivered + [d]
    ensures Callers(s', id) + Waiting(id)(s.threads[i]) == Callers(s, id) + Answered(id)(d)
  {
    SumByUpdate(s.threads, Waiting(id), i, Idle);
    SumByAppend(s.delivered, Answered(id), d);
  }

  /** What a step can do to one thread's call. */
  predicate Advances(was: Pc, now: Pc) {
    !InSync(now) || (InSync(was) && was.id == now.id)
  }

  /** One thread went on, and if it came to its end the call was given a message. */
  predicate GoesOn(s: State, i: nat, s': State)
    requires i < |s.threads|
  {
    && |s'.threads| == |s.threads| && s'.threads == s.threads[i := s'.threads[i]] && s'.issued == s.issued
    && if s'.delivered == s.delivered then Advances(s.threads[i], s'.threads[i])
       else
         && s'.threads[i] == Idle && |s'.delivered| == |s.delivered| + 1
         && s'.delivered == s.delivered + [s'.delivered[|s.delivered|]]
         && s'.delivered[|s.delivered|].wanted == if InSync(s.threads[i]) then Some(s.threads[i].id) else None
  }

  lemma Went(s: State, i: nat, pc: Pc, s': State)
    requires i < |s.threads| && Advances(s.threads[i], pc)
    requires s'.threads == s.threads[i := pc] && s'.issued == s.issued && s'.delivered == s.delivered
    ensures GoesOn(s, i, s')
  {
  }

  lemma Came(s: State, i: nat, d: Delivery, s': State)
    requires i < |s.threads| && d.wanted == if InSync(s.threads[i]) then Some(s.threads[i].id) else None
    requires s'.threads == s.threads[i := Idle] && s'.issued == s.issued && s'.delivered == s.delivered + [d]
    ensures GoesOn(s, i, s')
  {
  }

  lemma ResumeAdvances(s: State, i: nat)
    requires Enabled(s, Continue(i))
    ensures GoesOn(s, i, Resume(s, i))
  {
    var s' := Resume(s, i);
    hide GoesOn, NextFrame, Readable, FailsAfter, MayLose;
    match s.threads[i]
    case SyncTake(id) =>
      var k := ReplyIndex(s.queue, id);
      if k < |s.queue| {
        Came(s, i, Delivery(Some(id), s.queue[k]), s');
      } else {
        Went(s, i, SyncWait(id), s');
      }
    case SyncWait(id) => Went(s, i, SyncRead(id), s');
    case SyncRead(id) => ReadAdvances(s, i);
    case SyncKeep(id, _) => Went(s, i, SyncTake(id), s');
    case RecvWait => Went(s, i, RecvCheck, s');
    case RecvCheck =>
      if s.queue == [] {
        Went(s, i, RecvRead, s');
      } else {
        Came(s, i, Delivery(None, s.queue[0]), s');
      }
    case RecvRead => ReadAdvances(s, i);
  }

  lemma ReadAdvances(s: State, i: nat)
    requires Enabled(s, Continue(i)) && (s.threads[i].SyncRead? || s.threads[i].RecvRead?)
    ensures GoesOn(s, i, Resume(s, i))
  {
    var s' := Resume(s, i);
    var f := FrameAt(Read(s), |s.taken|);
    hide GoesOn, NextFrame, FailsAfter, MayLose, FrameAt, ReplyIndex;
    if s.threads[i].RecvRead? {
      Came(s, i, Delivery(None, f), s');
    } else {
      var id := s.threads[i].id;
      if f.isReply && f.id == id {
        Came(s, i, Delivery(Some(id), f), s');
      } else {
        Went(s, i, SyncKeep(id, f), s');
      }
    }
  }

  /** Only a call that is begun adds to the calls for an id, and only for the id it is given. */
  lemma StepCallers(s: State, a: Action, id: nat)
    requires Enabled(s, a)
    ensures Callers(Step(s, a), id) <= Callers(s, id) + if a.BeginSync? && id == s.nextId then 1 else 0
    ensures a.BeginSync? || a.Send? ==> Step(s, a).issued == s.issued + [s.nextId]
    ensures !a.BeginSync? && !a.Send? ==> Step(s, a).issued == s.issued
  {
    var s' := Step(s, a);
    hide Callers, NextFrame, Readable, FailsAfter, MayLose;
    match a
    case Send(_) => MovedOn(s, a.i, s.threads[a.i], s', id);
    case BeginSync(i, _) => MovedOn(s, i, s'.threads[i], s', id);
    case BeginReceive(i) =>
      if s.queue == [] {
        MovedOn(s, i, RecvWait, s', id);
      } else {
        Returned(s, i, Delivery(None, s.queue[0]), s', id);
      }
    case Fail(i, _) => MovedOn(s, i, Idle, s', id);
    case Continue(i) =>
      ResumeAdvances(s, i);
      if s'.delivered == s.delivered {
        MovedOn(s, i, s'.threads[i], s', id);
      } else {
        Returned(s, i, s'.delivered[|s.delivered|], s', id);
      }
  }

  /** Every id that is waited for or answered was issued, and to one call. */
  ghost predicate OneCaller(s: State) {
    IdsFresh(s) && forall id: nat :: Callers(s, id) <= if id in s.issued then 1 else 0
  }

  lemma StepKeepsOneCaller(s: State, a: Action)
    requires OneCaller(s) && Enabled(s, a)
    ensures OneCaller(Step(s, a))
  {
    StepKeepsIds(s, a);
    assert s.nextId !in s.issued;
    hide Step, Enabled, Callers, IdsFresh;
    forall id: nat ensures Callers(Step(s, a), id) <= if id in Step(s, a).issued then 1 else 0 {
      StepCallers(s, a, id);
    }
  }

  lemma {:induction false} RunKeepsOneCaller(s: State, run: seq<Action>)
    requires OneCaller(s) && LegalRun(s, run)
    ensures OneCaller(After(s, run))
    decreases |run|
  {
    hide Step, Enabled, OneCaller;
    if run != [] {
      StepKeepsOneCaller(s, run[0]);
      RunKeepsOneCaller(Step(s, run[0]), run[1..]);
    }
  }

  lemma NoCallers(s: State)
    requires Init(s)
    ensures OneCaller(s)
  {
    forall id: nat ensures Callers(s, id) == 0 {
      SumByZero(s.threads, Waiting(id));
    }
  }

  /**
   * In every interleaving, no two sync calls are for the same id: a call in
   * progress waits for an id the connection issued, which no other call in
   * progress waits for and no finished call was answered with, and no two
   * finished calls were answered for the same id.
   */
  lemma {:induction false} CallsAreApart(s: State, run: seq<Action>)
    requires Init(s) && LegalRun(s, run)
    ensures var e := After(s, run);
      && (forall i {:trigger e.threads[i]} :: 0 <= i < |e.threads| && InSync(e.threads[i]) ==>
            && e.threads[i].id in e.issued
            && (forall j :: i < j < |e.threads| ==> !Awaits(e.threads[j], e.threads[i].id))
            && (forall k :: 0 <= k < |e.delivered| ==> e.delivered[k].wanted != Some(e.threads[i].id)))
      && (forall k :: 0 <= k < |e.delivered| && e.delivered[k].wanted.Some? ==>
            e.delivered[k].wanted.value in e.issued)
      && (forall j, k :: 0 <= j < k < |e.delivered| && e.delivered[j].wanted.Some? ==>
            e.delivered[j].wanted != e.delivered[k].wanted)
  {
    NoCallers(s);
    RunKeepsOneCaller(s, run);
    var e := After(s, run);
    hide After, LegalRun, IdsFresh;
    forall i {:trigger e.threads[i]} | 0 <= i < |e.threads| && InSync(e.threads[i])
      ensures e.threads[i].id in e.issued
      ensures forall j :: i < j < |e.threads| ==> !Awaits(e.threads[j], e.threads[i].id)
      ensures forall k :: 0 <= k < |e.delivered| ==> e.delivered[k].wanted != Some(e.threads[i].id)
    {
      OneInProgress(e, i);
    }
    forall k | 0 <= k < |e.delivered| && e.delivered[k].wanted.Some?
      ensures e.delivered[k].wanted.value in e.issued
      ensures forall l :: k < l < |e.delivered| ==> e.delivered[k].wanted != e.delivered[l].wanted
    {
      OneFinished(e, k);
    }
  }

  lemma {:induction false} OneInProgress(e: State, i: nat)
    requires OneCaller(e) && i < |e.threads| && InSync(e.threads[i])
    ensures e.threads[i].id in e.issued
    ensures forall j :: i < j < |e.threads| ==> !Awaits(e.threads[j], e.threads[i].id)
    ensures forall k :: 0 <= k < |e.delivered| ==> e.delivered[k].wanted != Some(e.threads[i].id)
  {
    var id := e.threads[i].id;
    assert Callers(e, id) <= 1;
    SumByAtLeast(e.threads, Waiting(id), i);
    forall j | i < j < |e.threads| ensures !Awaits(e.threads[j], id) {
      SumByPair(e.threads, Waiting(id), i, j);
    }
    forall k | 0 <= k < |e.delivered| ensures e.delivered[k].wanted != Some(id) {
      SumByAtLeast(e.delivered, Answered(id), k);
    }
  }

  lemma {:induction false} OneFinished(e: State, k: nat)
    requires OneCaller(e) && k < |e.delivered| && e.delivered[k].wanted.Some?
    ensures e.delivered[k].wanted.value in e.issued
    ensures forall l :: k < l < |e.delivered| ==> e.delivered[k].wanted != e.delivered[l].wanted
  {
    var id := e.delivered[k].wanted.value;
    assert Callers(e, id) <= 1;
    SumByAtLeast(e.delivered, Answered(id), k);
    forall l | k < l < |e.delivered| ensures e.delivered[l].wanted != Some(id) {
      SumByPair(e.delivered, Answered(id), k, l);
    }
  }

  // ------------------------------------------------------- a call left alone

  predicate Answers(m: Message, id: nat) {
    m.isReply && m.id == id
  }

  /** The messages, as they are queued when they are read one after the other from now on. */
  function Arrivals(s: State, ms: seq<Message>): seq<Pending> {
    seq(|ms|, k requires 0 <= k < |ms| => Pending(ms[k].id, ms[k].isReply, |s.taken| + k))
  }

  lemma {:induction false} RunOn(s: State, first: seq<Action>, mid: State, rest: seq<Action>)
    requires LegalRun(s, first) && After(s, first) == mid && LegalRun(mid, rest)
    ensures LegalRun(s, first + rest) && After(s, first + rest) == After(mid, rest)
    decreases |first|
  {
    hide Step, Enabled;
    if first == [] {
      assert first + rest == rest;
    } else {
      assert (first + rest)[1..] == first[1..] + rest && (first + rest)[0] == first[0];
      RunOn(Step(s, first[0]), first[1..], mid, rest);
    }
  }

  lemma ReadFirst(s: State, m: Message, rest: seq<Byte>)
    requires Sendable(m) && s.pos <= |s.stream| && s.stream[s.pos..] == Serialize(m).value + rest
    ensures Readable(s) && Read(s) == s.(pos := |s.stream| - |rest|, taken := s.taken + [m])
  {
    FrameFirst(m, rest);
    hide Serialize, NextFrame, Sendable;
  }

  /** Thread i finds no reply in the queue and comes to read. */
  lemma ComesToRead(s: State, i: nat, id: nat) returns (s1: State, s2: State)
    requires i < |s.threads| && s.threads[i] == SyncTake(id) && s.readLock.None?
    requires ReplyIndex(s.queue, id) == |s.queue|
    ensures Goes(s, Continue(i), s1) && Goes(s1, Continue(i), s2)
    ensures s2 == s.(threads := s.threads[i := SyncRead(id)], readLock := Some(i))
  {
    s1 := s.(threads := s.threads[i := SyncWait(id)]);
    s2 := s1.(threads := s.threads[i := SyncRead(id)], readLock := Some(i));
    hide ReplyIndex, NextFrame, Readable, Read;
  }

  lemma ReadsOther(s: State, i: nat, m: Message, rest: seq<Byte>) returns (s1: State, s2: State)
    requires i < |s.threads| && s.threads[i].SyncRead? && !Answers(m, s.threads[i].id)
    requires Sendable(m) && s.pos <= |s.stream| && s.stream[s.pos..] == Serialize(m).value + rest
    ensures Goes(s, Continue(i), s1) && Goes(s1, Continue(i), s2)
    ensures s2 == s.(threads := s.threads[i := SyncTake(s.threads[i].id)], readLock := None,
                     pos := |s.stream| - |rest|, taken := s.taken + [m], queue := s.queue + Arrivals(s, [m]))
  {
    var id, p := s.threads[i].id, Pending(m.id, m.isReply, |s.taken|);
    s1 := s.(threads := s.threads[i := SyncKeep(id, p)], readLock := None,
             pos := |s.stream| - |rest|, taken := s.taken + [m]);
    s2 := s1.(threads := s.threads[i := SyncTake(id)], queue := s.queue + [p]);
    TakesInHand(s, i, m, rest, s1);
    hide Goes, Serialize, Sendable, Answers;
    Queue(s1, i, s2);
    assert Arrivals(s, [m]) == [p];
  }

  lemma TakesInHand(s: State, i: nat, m: Message, rest: seq<Byte>, s1: State)
    requires i < |s.threads| && s.threads[i].SyncRead? && !Answers(m, s.threads[i].id)
    requires Sendable(m) && s.pos <= |s.stream| && s.stream[s.pos..] == Serialize(m).value + rest
    requires s1 == s.(threads := s.threads[i := SyncKeep(s.threads[i].id, Pending(m.id, m.isReply, |s.taken|))],
                      readLock := None, pos := |s.stream| - |rest|, taken := s.taken + [m])
    ensures Goes(s, Continue(i), s1)
  {
    ReadFirst(s, m, rest);
    hide Readable, Read, Serialize, Sendable;
  }

  lemma ReadsReply(s: State, i: nat, m: Message, rest: seq<Byte>) returns (s1: State)
    requires i < |s.threads| && s.threads[i].SyncRead? && Answers(m, s.threads[i].id)
    requires Sendable(m) && s.pos <= |s.stream| && s.stream[s.pos..] == Serialize(m).value + rest
    ensures Goes(s, Continue(i), s1)
    ensures s1 == s.(threads := s.threads[i := Idle], readLock := None, pos := |s.stream| - |rest|,
                     taken := s.taken + [m],
                     delivered := s.delivered + [Delivery(Some(m.id), Pending(m.id, true, |s.taken|))])
  {
    ReadFirst(s, m, rest);
    s1 := s.(threads := s.threads[i := Idle], readLock := None, pos := |s.stream| - |rest|,
             taken := s.taken + [m],
             delivered := s.delivered + [Delivery(Some(m.id), Pending(m.id, true, |s.taken|))]);
    hide Readable, Read, Serialize, Sendable;
  }

  lemma StillNone(q: seq<Pending>, p: Pending, id: nat)
    requires ReplyIndex(q, id) == |q| && !(p.isReply && p.id == id)
    ensures ReplyIndex(q + [p], id) == |q + [p]|
  {
  }

  lemma MoreArrivals(s: State, s': State, m: Message, more: seq<Message>)
    requires s'.taken == s.taken + [m]
    ensures Arrivals(s, [m]) + Arrivals(s', more) == Arrivals(s, [m] + more)
  {
  }

  /** A call that waits alone. */
  lemma {:induction false} WaitsAlone(s: State, i: nat, id: nat, others: seq<Message>, reply: Message, rest: seq<Byte>)
    returns (run: seq<Action>)
    requires i < |s.threads| && s.threads[i] == SyncTake(id) && s.readLock.None?
    requires ReplyIndex(s.queue, id) == |s.queue|
    requires (forall k :: 0 <= k < |others| ==> Sendable(others[k])) && Sendable(reply) && Answers(reply, id)
    requires forall k :: 0 <= k < |others| ==> !Answers(others[k], id)
    requires s.pos <= |s.stream| && s.stream[s.pos..] == Wire(others) + (Serialize(reply).value + rest)
    ensures LegalRun(s, run) && forall k :: 0 <= k < |run| ==> run[k] == Continue(i)
    ensures After(s, run) ==
      s.(threads := s.threads[i := Idle], pos := |s.stream| - |rest|, taken := s.taken + others + [reply],
         queue := s.queue + Arrivals(s, others),
         delivered := s.delivered + [Delivery(Some(id), Pending(id, true, |s.taken| + |others|))])
    decreases |others|
  {
    hide Serialize, ValidMessage, KeyedEntries, Goes, Enabled, Step, After, LegalRun, ReplyIndex;
    var s1, s2 := ComesToRead(s, i, id);
    if others == [] {
      assert Wire([]) == [];
      assert s.stream[s.pos..] == Serialize(reply).value + rest;
      var s3 := ReadsReply(s2, i, reply, rest);
      run := [Continue(i), Continue(i), Continue(i)];
      RunThrough([s, s1, s2, s3], run);
      assert s.queue + Arrivals(s, others) == s.queue;
    } else {
      var m, more := others[0], others[1..];
      var behind := Wire(more) + (Serialize(reply).value + rest);
      assert s.stream[s.pos..] == Serialize(m).value + behind;
      var s3, s4 := ReadsOther(s2, i, m, behind);
      var four := [Continue(i), Continue(i), Continue(i), Continue(i)];
      RunThrough([s, s1, s2, s3, s4], four);
      StillNone(s.queue, Arrivals(s2, [m])[0], id);
      assert s4.stream[s4.pos..] == behind;
      var onwards := WaitsAlone(s4, i, id, more, reply, rest);
      run := four + onwards;
      RunOn(s, four, s4, onwards);
      MoreArrivals(s, s4, m, more);
      assert others == [m] + more;
    }
  }

  lemma Begun(s: State, i: nat) returns (s1: State)
    requires i < |s.threads| && s.threads[i].Idle?
    ensures LegalRun(s, [BeginSync(i, true)]) && After(s, [BeginSync(i, true)]) == s1
    ensures s1 == s.(threads := s.threads[i := SyncTake(s.nextId)], nextId := s.nextId + 1,
                     issued := s.issued + [s.nextId])
  {
    s1 := s.(threads := s.threads[i := SyncTake(s.nextId)], nextId := s.nextId + 1, issued := s.issued + [s.nextId]);
    Begin(s, i, s1);
    hide Goes, LegalRun, After;
    RunThrough([s, s1], [BeginSync(i, true)]);
  }

  /**
   * A sync call that is made and left alone takes the first reply to its own
   * request off the stream and returns it. Whatever comes before it is read
   * too, and queued in the order it came for the receives to come.
   */
  lemma SyncReturnsItsReply(s: State, i: nat, others: seq<Message>, reply: Message, rest: seq<Byte>)
    returns (run: seq<Action>)
    requires i < |s.threads| && s.threads[i].Idle? && s.readLock.None?
    requires ReplyIndex(s.queue, s.nextId) == |s.queue|
    requires (forall k :: 0 <= k < |others| ==> Sendable(others[k])) && Sendable(reply) && Answers(reply, s.nextId)
    requires forall k :: 0 <= k < |others| ==> !Answers(others[k], s.nextId)
    requires s.pos <= |s.stream| && s.stream[s.pos..] == Wire(others) + (Serialize(reply).value + rest)
    ensures LegalRun(s, [BeginSync(i, true)] + run) && forall k :: 0 <= k < |run| ==> run[k] == Continue(i)
    ensures var e := After(s, [BeginSync(i, true)] + run);
      && e.issued == s.issued + [s.nextId]
      && e.delivered == s.delivered + [Delivery(Some(s.nextId), Pending(s.nextId, true, |s.taken| + |others|))]
      && e.taken == s.taken + others + [reply] && e.pos == |s.stream| - |rest|
      && e.queue == s.queue + Arrivals(s, others) && e.readLock.None? && e.threads == s.threads
  {
    hide Serialize, Sendable, Wire, Answers, Goes, Enabled, Step, After, LegalRun, ReplyIndex;
    var s1 := Begun(s, i);
    run := WaitsAlone(s1, i, s.nextId, others, reply, rest);
    RunOn(s, [BeginSync(i, true)], s1, run);
    assert s1.threads[i := Idle] == s.threads;
    assert Arrivals(s1, others) == Arrivals(s, others);
  }

  /** A call that looks in the queue while its reply is there returns with it, and leaves the rest in order. */
  lemma SyncTakesQueuedReply(s: State, i: nat, id: nat, before: seq<Pending>, p: Pending, behind: seq<Pending>)
    requires i < |s.threads| && s.threads[i] == SyncTake(id) && s.queue == before + [p] + behind
    requires p.isReply && p.id == id && forall q :: q in before ==> !(q.isReply && q.id == id)
    ensures Enabled(s, Continue(i))
    ensures Step(s, Continue(i)) ==
      s.(threads := s.threads[i := Idle], queue := before + behind,
         delivered := s.delivered + [Delivery(Some(id), p)])
  {
    assert s.queue[|before|] == p;
    assert forall k :: 0 <= k < |before| ==> s.queue[k] == before[k];
    assert ReplyIndex(s.queue, id) == |before|;
    assert s.queue[..|before|] == before && s.queue[|before| + 1..] == behind;
    hide ReplyIndex, NextFrame, Readable, Read;
  }

  // ------------------------------------------- a reply that is overlooked

  /** Whoever waits for the id has looked in the queue and will read before looking again. */
  predicate PastTheQueue(s: State, id: nat) {
    && id < s.nextId
    && forall j :: 0 <= j < |s.threads| && Awaits(s.threads[j], id) ==> s.threads[j].SyncWait? || s.threads[j].SyncRead?
  }

  lemma StaysPastTheQueue(s: State, a: Action, id: nat)
    requires Enabled(s, a) && PastTheQueue(s, id) && Step(s, a).taken == s.taken
    ensures PastTheQueue(Step(s, a), id)
    ensures s.delivered <= Step(s, a).delivered
    ensures forall k :: |s.delivered| <= k < |Step(s, a).delivered| ==> Step(s, a).delivered[k].wanted != Some(id)
  {
    hide NextFrame, Readable, Read, FailsAfter, MayLose, ReplyIndex, FrameAt;
    ReadingTakes(s, a);
  }

  lemma ReadingTakes(s: State, a: Action)
    requires Enabled(s, a)
    ensures a.Continue? && (s.threads[a.i].SyncRead? || s.threads[a.i].RecvRead?) ==>
      |Step(s, a).taken| == |s.taken| + 1
  {
    hide NextFrame, Readable, FailsAfter, MayLose, ReplyIndex, FrameAt;
  }

  lemma StepTakes(s: State, a: Action)
    requires Enabled(s, a)
    ensures s.taken <= Step(s, a).taken
  {
    hide NextFrame, Readable, FailsAfter, MayLose, ReplyIndex;
  }

  lemma {:induction false} RunTakes(s: State, run: seq<Action>)
    requires LegalRun(s, run)
    ensures s.taken <= After(s, run).taken
    decreases |run|
  {
    hide Step, Enabled;
    if run != [] {
      StepTakes(s, run[0]);
      RunTakes(Step(s, run[0]), run[1..]);
    }
  }

  /**
   * A sync call that waits for the read lock, or reads, is not given its reply
   * before another frame is read by somebody, even if the reply is already in
   * the queue, whatever any thread does. SyncTakesQueuedReply is the other
   * half: a call that still has to look in the queue finds it there.
   */
  lemma {:induction false} NotBeforeTheNextFrame(s: State, run: seq<Action>, id: nat)
    requires LegalRun(s, run) && PastTheQueue(s, id) && After(s, run).taken == s.taken
    ensures PastTheQueue(After(s, run), id) && s.delivered <= After(s, run).delivered
    ensures forall k :: |s.delivered| <= k < |After(s, run).delivered| ==>
      After(s, run).delivered[k].wanted != Some(id)
    decreases |run|
  {
    hide Step, Enabled, PastTheQueue;
    if run != [] {
      var next := Step(s, run[0]);
      StepTakes(s, run[0]);
      RunTakes(next, run[1..]);
      StaysPastTheQueue(s, run[0], id);
      NotBeforeTheNextFrame(next, run[1..], id);
    }
  }

  /** There is such a run: the reply is read by another call while its own waits for the read lock. */
  lemma ReplyIsOverlooked(s0: State, reply: Message) returns (run: seq<Action>)
    requires Init(s0) && s0.threads == [Idle, Idle] && At(s0.stream, 0, reply) && reply.isReply && reply.id == 1
    ensures LegalRun(s0, run)
    ensures var e := After(s0, run);
      && e.threads == [SyncRead(1), SyncTake(2)] && e.queue == [Pending(1, true, 0)]
      && PastTheQueue(e, 1) && !Enabled(e, Continue(0))
  {
    hide At, Goes, Enabled, Step, After, LegalRun;
    run := [BeginSync(0, true), Continue(0), BeginSync(1, true), Continue(1), Continue(1), Continue(1), Continue(1),
            Continue(0)];
    var s1 := s0.(threads := [SyncTake(1), Idle], nextId := 2, issued := [1]);
    Begin(s0, 0, s1);
    var s2 := s1.(threads := [SyncWait(1), Idle]);
    Proceed(s1, 0, s2);
    var s3 := s2.(threads := [SyncWait(1), SyncTake(2)], nextId := 3, issued := [1, 2]);
    Begin(s2, 1, s3);
    var s4 := s3.(threads := [SyncWait(1), SyncWait(2)]);
    Proceed(s3, 1, s4);
    var s5 := s4.(threads := [SyncWait(1), SyncRead(2)], readLock := Some(1));
    Lock(s4, 1, s5);
    var got := Pending(1, true, 0);
    var s6 := s5.(threads := [SyncWait(1), SyncKeep(2, got)], pos := |s0.stream|, taken := [reply], readLock := None);
    Keep(s5, 1, reply, s6);
    var s7 := s6.(threads := [SyncWait(1), SyncTake(2)], queue := [got]);
    Queue(s6, 1, s7);
    var s8 := s7.(threads := [SyncRead(1), SyncTake(2)], readLock := Some(0));
    Lock(s7, 0, s8);
    RunThrough([s0, s1, s2, s3, s4, s5, s6, s7, s8], run);
    NothingThere(s8);
  }

  lemma NothingThere(s: State)
    requires s.threads == [SyncRead(1), SyncTake(2)] && s.pos == |s.stream|
    ensures !Enabled(s, Continue(0))
  {
    EmptyIsCut();
    assert s.stream[s.pos..] == [];
    hide NextFrame;
  }
}
