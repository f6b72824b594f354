/**
 * Requests, replies and receives of any number of threads on one connection
 * that has not been resumed. A section under `lock`, an acquisition of
 * `read_lock` and a frame read under it are one step each; a run is any
 * interleaving of them.
 */
module XpcCorrelation {
  import opened Common
  import opened XpcPending
  import opened XpcWire
  import opened XpcRoundTrip
  import opened XpcStream

  datatype Pc =
    | Idle
    | SyncTake(id: nat)                   // about to look for the reply in the queue
    | SyncWait(id: nat)                   // waiting for read_lock
    | SyncRead(id: nat)                   // holding it, reading a frame
    | SyncKeep(id: nat, held: Pending)    // read somebody else's message, about to queue it
    | RecvWait
    | RecvCheck                           // holding read_lock, about to look in the queue again
    | RecvRead

  /** A message handed to a caller: a sync call's (with the id it sent) or a receive's. */
  datatype Delivery = Delivery(wanted: Option<nat>, got: Pending)

  datatype State = State(
    nextId: nat,
    issued: seq<nat>,
    stream: seq<Byte>,      // every byte that arrives on the socket
    pos: nat,               // how many of them have been taken off it
    lost: nat,              // and how many of those by reads that failed
    taken: seq<Message>,    // the messages read, in order
    queue: seq<Pending>,
    readLock: Option<nat>,
    threads: seq<Pc>,
    delivered: seq<Delivery>)

  datatype Action =
    | Send(i: nat)                  // send_message: takes an id, no reply awaited
    | BeginSync(i: nat, sent: bool) // the id is used up even if sending fails
    | BeginReceive(i: nat)
    | Continue(i: nat)
    | Fail(i: nat, gone: nat)       // the frame read fails or times out, and what it took is gone

  predicate Holds(pc: Pc) {
    pc.SyncRead? || pc.RecvCheck? || pc.RecvRead?
  }

  /** frame_read finds a frame where the stream has been read to. */
  predicate Readable(s: State) {
    s.pos <= |s.stream| && NextFrame(s.stream[s.pos..]).Frame?
  }

  predicate MayLose(stream: seq<Byte>, pos: nat, gone: nat) {
    pos <= |stream| && FailsAfter(stream[pos..], gone)
  }

  function Read(s: State): (r: State)
    requires Readable(s)
    ensures r == s.(pos := r.pos, taken := r.taken)
    ensures |r.taken| == |s.taken| + 1 && r.taken[..|s.taken|] == s.taken && r.pos > s.pos
  {
    var next := NextFrame(s.stream[s.pos..]);
    s.(pos := |s.stream| - |next.rest|, taken := s.taken + [next.message])
  }

  predicate Enabled(s: State, a: Action) {
    && a.i < |s.threads|
    && var pc := s.threads[a.i];
       match a
       case Send(_) => pc.Idle?
       case BeginSync(_, _) => pc.Idle?
       case BeginReceive(_) => pc.Idle?
       case Continue(_) =>
         && !pc.Idle?
         && (pc.SyncWait? || pc.RecvWait? ==> s.readLock.None?)
         && (pc.SyncRead? || pc.RecvRead? ==> Readable(s))
       case Fail(_, gone) => (pc.SyncRead? || pc.RecvRead?) && MayLose(s.stream, s.pos, gone)
  }

  function Go(s: State, i: nat, pc: Pc): State
    requires i < |s.threads|
  {
    s.(threads := s.threads[i := pc])
  }

  function Deliver(s: State, i: nat, wanted: Option<nat>, got: Pending): State
    requires i < |s.threads|
  {
    Go(s, i, Idle).(delivered := s.delivered + [Delivery(wanted, got)])
  }

  function FrameAt(s: State, k: nat): Pending
    requires k < |s.taken|
  {
    Pending(s.taken[k].id, s.taken[k].isReply, k)
  }

  /** queue_pop_locked, and where the caller goes when it finds nothing. */
  function PopOr(s: State, i: nat, empty: State): State
    requires i < |s.threads|
  {
    if s.queue == [] then empty
    else Deliver(s, i, None, s.queue[0]).(queue := s.queue[1..])
  }

  function Resume(s: State, i: nat): State
    requires Enabled(s, Continue(i))
  {
    match s.threads[i]
    case SyncTake(id) =>
      var k := ReplyIndex(s.queue, id);
      if k < |s.queue| then Deliver(s, i, Some(id), s.queue[k]).(queue := Without(s.queue, k))
      else Go(s, i, SyncWait(id))
    case SyncWait(id) => Go(s, i, SyncRead(id)).(readLock := Some(i))
    case SyncRead(id) =>
      var s1 := Read(s).(readLock := None);
      var f := FrameAt(s1, |s.taken|);
      if f.isReply && f.id == id then Deliver(s1, i, Some(id), f) else Go(s1, i, SyncKeep(id, f))
    case SyncKeep(id, f) => Go(s, i, SyncTake(id)).(queue := s.queue + [f])
    case RecvWait => Go(s, i, RecvCheck).(readLock := Some(i))
    case RecvCheck =>
      if s.queue == [] then Go(s, i, RecvRead) else PopOr(s, i, s).(readLock := None)
    case RecvRead =>
      var s1 := Read(s).(readLock := None);
      Deliver(s1, i, None, FrameAt(s1, |s.taken|))
  }

  function Step(s: State, a: Action): State
    requires Enabled(s, a)
  {
    match a
    case Send(_) => s.(nextId := s.nextId + 1, issued := s.issued + [s.nextId])
    case BeginSync(i, sent) =>
      Go(s, i, if sent then SyncTake(s.nextId) else Idle).(nextId := s.nextId + 1, issued := s.issued + [s.nextId])
    case BeginReceive(i) => PopOr(s, i, Go(s, i, RecvWait))
    case Continue(i) => Resume(s, i)
    case Fail(i, gone) => Go(s, i, Idle).(readLock := None, pos := s.pos + gone, lost := s.lost + gone)
  }

  // -------------------------------------------------------- where frames are

  function Is(p: Pending, f: nat): nat {
    if p.frame == f then 1 else 0
  }

  function InHand(f: nat): Pc -> nat {
    (pc: Pc) => if pc.SyncKeep? then Is(pc.held, f) else 0
  }

  function Queued(f: nat): Pending -> nat {
    (p: Pending) => Is(p, f)
  }

  function Returned(f: nat): Delivery -> nat {
    (d: Delivery) => Is(d.got, f)
  }

  /** In how many places frame f is. */
  function Places(s: State, f: nat): nat {
    SumBy(s.threads, InHand(f)) + SumBy(s.queue, Queued(f)) + SumBy(s.delivered, Returned(f))
  }

  /** A pending message is the frame it says it is. */
  predicate Genuine(s: State, p: Pending) {
    p.frame < |s.taken| && p == FrameAt(s, p.frame)
  }

  /** Each frame read so far is in exactly one place: one hand, the queue, or one caller. */
  ghost predicate EachOnce(s: State) {
    forall f: nat :: Places(s, f) == if f < |s.taken| then 1 else 0
  }

  predicate IdsFresh(s: State) {
    && (forall k :: 0 <= k < |s.issued| ==> s.issued[k] < s.nextId)
    && (forall j, k :: 0 <= j < k < |s.issued| ==> s.issued[j] < s.issued[k])
  }

  predicate Exclusive(s: State) {
    forall i :: 0 <= i < |s.threads| ==> (Holds(s.threads[i]) <==> s.readLock == Some(i))
  }

  predicate AllGenuine(s: State) {
    && (forall k :: 0 <= k < |s.queue| ==> Genuine(s, s.queue[k]))
    && (forall i :: 0 <= i < |s.threads| && s.threads[i].SyncKeep? ==> Genuine(s, s.threads[i].held))
    && (forall k :: 0 <= k < |s.delivered| ==> Genuine(s, s.delivered[k].got))
  }

  /** A sync call returned only a reply frame carrying its own id. */
  predicate RepliesMatch(s: State) {
    forall k :: 0 <= k < |s.delivered| && s.delivered[k].wanted.Some? ==>
      s.delivered[k].got.isReply && s.delivered[k].got.id == s.delivered[k].wanted.value
  }

  ghost predicate Inv(s: State) {
    EachOnce(s) && IdsFresh(s) && Exclusive(s) && AllGenuine(s) && RepliesMatch(s)
  }

  predicate Init(s: State) {
    && s.nextId == 1 && s.issued == []
    && s.pos == 0 && s.lost == 0 && s.taken == []
    && s.queue == [] && s.readLock.None? && s.delivered == []
    && forall i :: 0 <= i < |s.threads| ==> s.threads[i].Idle?
  }

  lemma InitInv(s: State)
    requires Init(s)
    ensures Inv(s)
  {
    forall f: nat
      ensures Places(s, f) == 0
    {
      SumByZero(s.threads, InHand(f));
    }
  }

  lemma TakePlaces(s: State, i: nat, k: nat, wanted: Option<nat>, f: nat)
    requires i < |s.threads| && !s.threads[i].SyncKeep? && k < |s.queue|
    ensures Places(Deliver(s, i, wanted, s.queue[k]).(queue := Without(s.queue, k)), f) == Places(s, f)
  {
    SumByUpdate(s.threads, InHand(f), i, Idle);
    SumByWithout(s.queue, Queued(f), k);
    SumByAppend(s.delivered, Returned(f), Delivery(wanted, s.queue[k]));
  }

  lemma GoPlaces(s: State, i: nat, pc: Pc, f: nat)
    requires i < |s.threads|
    ensures Places(Go(s, i, pc), f) + InHand(f)(s.threads[i]) == Places(s, f) + InHand(f)(pc)
  {
    SumByUpdate(s.threads, InHand(f), i, pc);
  }

  lemma DeliverPlaces(s: State, i: nat, wanted: Option<nat>, got: Pending, f: nat)
    requires i < |s.threads| && !s.threads[i].SyncKeep?
    ensures Places(Deliver(s, i, wanted, got), f) == Places(s, f) + Is(got, f)
  {
    SumByUpdate(s.threads, InHand(f), i, Idle);
    SumByAppend(s.delivered, Returned(f), Delivery(wanted, got));
  }

  /** A read brings one frame in; every other step moves frames, losing and doubling none. */
  lemma StepPlaces(s: State, a: Action, f: nat)
    requires Enabled(s, a)
    ensures Places(Step(s, a), f) == Places(s, f) + if |s.taken| <= f < |Step(s, a).taken| then 1 else 0
  {
    var s' := Step(s, a);
    var i := a.i;
    if s.queue != [] {
      assert Without(s.queue, 0) == s.queue[1..];
    }
    match a
    case Send(_) =>
    case BeginSync(_, sent) => GoPlaces(s, i, s'.threads[i], f);
    case Fail(_, _) =>
      GoPlaces(s, i, Idle, f);
      SamePlaces(Go(s, i, Idle), s', f);
    case BeginReceive(_) =>
      if s.queue == [] {
        GoPlaces(s, i, RecvWait, f);
      } else {
        TakePlaces(s, i, 0, None, f);
      }
    case Continue(_) => ResumePlaces(s, i, f);
  }

  lemma SamePlaces(s: State, s': State, f: nat)
    requires s'.queue == s.queue && s'.threads == s.threads && s'.delivered == s.delivered
    ensures Places(s', f) == Places(s, f)
  {
  }

  lemma KeepPlaces(s: State, i: nat, id: nat, g: Pending, f: nat)
    requires i < |s.threads| && s.threads[i] == SyncKeep(id, g)
    ensures Places(Go(s, i, SyncTake(id)).(queue := s.queue + [g]), f) == Places(s, f)
  {
    GoPlaces(s, i, SyncTake(id), f);
    SumByAppend(s.queue, Queued(f), g);
  }

  lemma ResumePlaces(s: State, i: nat, f: nat)
    requires Enabled(s, Continue(i))
    ensures Places(Resume(s, i), f) == Places(s, f) + if |s.taken| <= f < |Resume(s, i).taken| then 1 else 0
  {
    hide Places, ReplyIndex;
    if s.queue != [] {
      assert Without(s.queue, 0) == s.queue[1..];
    }
    match s.threads[i]
    case SyncTake(id) =>
      var k := ReplyIndex(s.queue, id);
      if k < |s.queue| {
        TakePlaces(s, i, k, Some(id), f);
      } else {
        GoPlaces(s, i, SyncWait(id), f);
      }
    case SyncWait(id) =>
      GoPlaces(s, i, SyncRead(id), f);
      SamePlaces(Go(s, i, SyncRead(id)), Resume(s, i), f);
    case SyncRead(id) => SyncReadPlaces(s, i, f);
    case SyncKeep(id, g) =>
      KeepPlaces(s, i, id, g, f);
    case RecvWait =>
      GoPlaces(s, i, RecvCheck, f);
      SamePlaces(Go(s, i, RecvCheck), Resume(s, i), f);
    case RecvCheck =>
      if s.queue == [] {
        GoPlaces(s, i, RecvRead, f);
      } else {
        TakePlaces(s, i, 0, None, f);
        SamePlaces(PopOr(s, i, s), Resume(s, i), f);
      }
    case RecvRead =>
      var s1 := Read(s).(readLock := None);
      SamePlaces(s, s1, f);
      DeliverPlaces(s1, i, None, FrameAt(s1, |s.taken|), f);
  }

  lemma SyncReadPlaces(s: State, i: nat, f: nat)
    requires Enabled(s, Continue(i)) && s.threads[i].SyncRead?
    ensures Places(Resume(s, i), f) == Places(s, f) + if |s.taken| <= f < |Resume(s, i).taken| then 1 else 0
  {
    var s1 := Read(s).(readLock := None);
    var g := FrameAt(s1, |s.taken|);
    SamePlaces(s, s1, f);
    DeliverPlaces(s1, i, Some(s.threads[i].id), g, f);
    GoPlaces(s1, i, SyncKeep(s.threads[i].id, g), f);
  }

  lemma StepKeepsEachOnce(s: State, a: Action)
    requires Inv(s) && Enabled(s, a)
    ensures EachOnce(Step(s, a)) && s.taken <= Step(s, a).taken
  {
    forall f: nat
      ensures Places(Step(s, a), f) == if f < |Step(s, a).taken| then 1 else 0
    {
      StepPlaces(s, a, f);
    }
  }

  lemma DeliverGenuine(s: State, i: nat, wanted: Option<nat>, got: Pending)
    requires AllGenuine(s) && RepliesMatch(s) && i < |s.threads| && Genuine(s, got)
    requires wanted.Some? ==> got.isReply && got.id == wanted.value
    ensures AllGenuine(Deliver(s, i, wanted, got)) && RepliesMatch(Deliver(s, i, wanted, got))
  {
  }

  lemma TakeGenuine(s: State, i: nat, k: nat, wanted: Option<nat>)
    requires AllGenuine(s) && RepliesMatch(s) && i < |s.threads| && k < |s.queue|
    requires wanted.Some? ==> s.queue[k].isReply && s.queue[k].id == wanted.value
    ensures var s' := Deliver(s, i, wanted, s.queue[k]).(queue := Without(s.queue, k));
      AllGenuine(s') && RepliesMatch(s')
  {
    DeliverGenuine(s, i, wanted, s.queue[k]);
  }

  lemma GoGenuine(s: State, i: nat, pc: Pc)
    requires AllGenuine(s) && RepliesMatch(s) && i < |s.threads|
    requires pc.SyncKeep? ==> Genuine(s, pc.held)
    ensures AllGenuine(Go(s, i, pc)) && RepliesMatch(Go(s, i, pc))
  {
  }

  /** The lock, the read position and the ids have nothing to do with it. */
  lemma SameGenuine(s: State, s': State)
    requires AllGenuine(s) && RepliesMatch(s)
    requires s.taken <= s'.taken && s'.queue == s.queue
    requires s'.threads == s.threads && s'.delivered == s.delivered
    ensures AllGenuine(s') && RepliesMatch(s')
  {
  }

  lemma SyncGenuine(s: State, i: nat)
    requires Inv(s) && Enabled(s, Continue(i))
    requires s.threads[i].SyncTake? || s.threads[i].SyncWait? || s.threads[i].SyncKeep?
    ensures AllGenuine(Resume(s, i)) && RepliesMatch(Resume(s, i))
  {
    match s.threads[i]
    case SyncTake(id) =>
      var k := ReplyIndex(s.queue, id);
      if k < |s.queue| {
        TakeGenuine(s, i, k, Some(id));
      } else {
        GoGenuine(s, i, SyncWait(id));
      }
    case SyncWait(id) =>
      GoGenuine(s, i, SyncRead(id));
      SameGenuine(Go(s, i, SyncRead(id)), Resume(s, i));
    case SyncKeep(id, g) => GoGenuine(s, i, SyncTake(id));
  }

  lemma ReadGenuine(s: State, i: nat)
    requires Inv(s) && Enabled(s, Continue(i)) && (s.threads[i].SyncRead? || s.threads[i].RecvRead?)
    ensures AllGenuine(Resume(s, i)) && RepliesMatch(Resume(s, i))
  {
    var s1 := Read(s).(readLock := None);
    var g := FrameAt(s1, |s.taken|);
    SameGenuine(s, s1);
    assert Genuine(s1, g);
    match s.threads[i]
    case SyncRead(id) =>
      if g.isReply && g.id == id {
        DeliverGenuine(s1, i, Some(id), g);
      } else {
        GoGenuine(s1, i, SyncKeep(id, g));
      }
    case RecvRead => DeliverGenuine(s1, i, None, g);
  }

  lemma RecvGenuine(s: State, i: nat)
    requires Inv(s) && Enabled(s, Continue(i)) && (s.threads[i].RecvWait? || s.threads[i].RecvCheck?)
    ensures AllGenuine(Resume(s, i)) && RepliesMatch(Resume(s, i))
  {
    if s.threads[i].RecvWait? {
      GoGenuine(s, i, RecvCheck);
      SameGenuine(Go(s, i, RecvCheck), Resume(s, i));
    } else if s.queue == [] {
      GoGenuine(s, i, RecvRead);
    } else {
      assert Without(s.queue, 0) == s.queue[1..];
      TakeGenuine(s, i, 0, None);
      SameGenuine(PopOr(s, i, s), Resume(s, i));
    }
  }

  lemma ResumeGenuine(s: State, i: nat)
    requires Inv(s) && Enabled(s, Continue(i))
    ensures AllGenuine(Resume(s, i)) && RepliesMatch(Resume(s, i))
  {
    match s.threads[i]
    case SyncTake(_) => SyncGenuine(s, i);
    case SyncWait(_) => SyncGenuine(s, i);
    case SyncKeep(_, _) => SyncGenuine(s, i);
    case SyncRead(_) => ReadGenuine(s, i);
    case RecvRead => ReadGenuine(s, i);
    case RecvWait => RecvGenuine(s, i);
    case RecvCheck => RecvGenuine(s, i);
  }

  lemma StepKeepsGenuine(s: State, a: Action)
    requires Inv(s) && Enabled(s, a)
    ensures AllGenuine(Step(s, a)) && RepliesMatch(Step(s, a))
  {
    if s.queue != [] {
      assert Without(s.queue, 0) == s.queue[1..];
    }
    match a
    case Send(_) =>
    case BeginSync(i, sent) => GoGenuine(s, i, if sent then SyncTake(s.nextId) else Idle);
    case BeginReceive(i) =>
      if s.queue == [] {
        GoGenuine(s, i, RecvWait);
      } else {
        TakeGenuine(s, i, 0, None);
      }
    case Continue(i) => ResumeGenuine(s, i);
    case Fail(i, _) =>
      GoGenuine(s, i, Idle);
      SameGenuine(Go(s, i, Idle), Step(s, a));
  }

  lemma StepKeepsLock(s: State, a: Action)
    requires Inv(s) && Enabled(s, a)
    ensures Exclusive(Step(s, a)) && IdsFresh(Step(s, a))
  {
    StepKeepsExclusive(s, a);
    StepKeepsIds(s, a);
    hide Step, Enabled, Inv, Exclusive, IdsFresh;
  }

  lemma StepKeepsExclusive(s: State, a: Action)
    requires Exclusive(s) && Enabled(s, a)
    ensures Exclusive(Step(s, a))
  {
    StepLocks(s, a);
    hide Enabled, Step, Holds;
  }

  /** Only the thread that takes the step moves, and it takes the lock only when that is free. */
  lemma StepLocks(s: State, a: Action)
    requires Enabled(s, a) && (Holds(s.threads[a.i]) <==> s.readLock == Some(a.i))
    ensures var s' := Step(s, a);
      && |s'.threads| == |s.threads| && s'.threads == s.threads[a.i := s'.threads[a.i]]
      && (Holds(s'.threads[a.i]) <==> s'.readLock == Some(a.i))
      && (s'.readLock == s.readLock || (s.readLock in {None, Some(a.i)} && s'.readLock in {None, Some(a.i)}))
  {
    hide NextFrame, FailsAfter, MayLose, Readable, Read, ReplyIndex;
    if a.Continue? {
      ResumeLocks(s, a.i);
      hide Resume;
    }
  }

  lemma ResumeLocks(s: State, i: nat)
    requires Enabled(s, Continue(i)) && (Holds(s.threads[i]) <==> s.readLock == Some(i))
    ensures var s' := Resume(s, i);
      && |s'.threads| == |s.threads| && s'.threads == s.threads[i := s'.threads[i]]
      && (Holds(s'.threads[i]) <==> s'.readLock == Some(i))
      && (s'.readLock == s.readLock || (s.readLock in {None, Some(i)} && s'.readLock in {None, Some(i)}))
  {
    hide NextFrame, FailsAfter, MayLose, Readable, Read, ReplyIndex;
  }

  lemma StepKeepsIds(s: State, a: Action)
    requires IdsFresh(s) && Enabled(s, a)
    ensures IdsFresh(Step(s, a))
  {
    hide NextFrame, FailsAfter, MayLose, Readable, Read, ReplyIndex;
  }

  lemma StepKeepsInv(s: State, a: Action)
    requires Inv(s) && Enabled(s, a)
    ensures Inv(Step(s, a))
  {
    StepKeepsEachOnce(s, a);
    StepKeepsGenuine(s, a);
    StepKeepsLock(s, a);
  }

  predicate LegalRun(s: State, run: seq<Action>)
    decreases |run|
  {
    run == [] || (Enabled(s, run[0]) && LegalRun(Step(s, run[0]), run[1..]))
  }

  function After(s: State, run: seq<Action>): State
    requires LegalRun(s, run)
    decreases |run|
  {
    if run == [] then s else After(Step(s, run[0]), run[1..])
  }

  lemma {:induction false} RunKeepsInv(s: State, run: seq<Action>)
    requires Inv(s) && LegalRun(s, run)
    ensures Inv(After(s, run)) && After(s, run).stream == s.stream
    decreases |run|
  {
    if run != [] {
      StepKeepsInv(s, run[0]);
      RunKeepsInv(Step(s, run[0]), run[1..]);
    }
  }

  /** The message is a frame that stands somewhere in the stream. */
  predicate Carries(stream: seq<Byte>, m: Message) {
    exists p :: 0 <= p <= |stream| && NextFrame(stream[p..]).Frame? && NextFrame(stream[p..]).message == m
  }

  predicate AllCarried(s: State) {
    forall k :: 0 <= k < |s.taken| ==> Carries(s.stream, s.taken[k])
  }

  lemma StepKeepsCarried(s: State, a: Action)
    requires Enabled(s, a) && AllCarried(s)
    ensures AllCarried(Step(s, a)) && Step(s, a).stream == s.stream
  {
    StepReads(s, a);
    hide NextFrame, Enabled, Step;
    if Readable(s) {
      assert NextFrame(s.stream[s.pos..]).Frame?;
      assert Carries(s.stream, Read(s).taken[|s.taken|]);
    }
  }

  lemma {:induction false} RunKeepsCarried(s: State, run: seq<Action>)
    requires LegalRun(s, run) && AllCarried(s)
    ensures AllCarried(After(s, run)) && After(s, run).stream == s.stream
    decreases |run|
  {
    hide Step, Enabled, AllCarried;
    if run != [] {
      StepKeepsCarried(s, run[0]);
      RunKeepsCarried(Step(s, run[0]), run[1..]);
    }
  }

  /**
   * In every interleaving, whatever reads fail: ids are distinct; each message
   * read so far is in exactly one place; two threads are never reading the
   * socket at once; every message handed out was read off the stream; and a
   * sync call is only ever handed a reply that carries its own id.
   */
  lemma EveryInterleaving(s: State, run: seq<Action>)
    requires Init(s) && LegalRun(s, run)
    ensures var e := After(s, run);
      && (forall j, k :: 0 <= j < k < |e.issued| ==> e.issued[j] != e.issued[k])
      && (forall f: nat :: Places(e, f) == if f < |e.taken| then 1 else 0)
      && (forall i, j :: 0 <= i < |e.threads| && 0 <= j < |e.threads| && Holds(e.threads[i]) && Holds(e.threads[j])
            ==> i == j)
      && (forall k :: 0 <= k < |e.taken| ==> Carries(s.stream, e.taken[k]))
      && (forall k :: 0 <= k < |e.delivered| ==>
            var d := e.delivered[k];
            && d.got.frame < |e.taken|
            && d.got == Pending(e.taken[d.got.frame].id, e.taken[d.got.frame].isReply, d.got.frame)
            && (d.wanted.Some? ==> d.got.isReply && d.got.id == d.wanted.value))
  {
    InitInv(s);
    RunKeepsInv(s, run);
    RunKeepsCarried(s, run);
    hide Step, Enabled, Carries, After, LegalRun;
  }

  /** No message read is handed out twice. */
  lemma {:induction false} DeliveredOnce(s: State, run: seq<Action>, j: nat, k: nat)
    requires Init(s) && LegalRun(s, run) && j < k < |After(s, run).delivered|
    ensures After(s, run).delivered[j].got.frame != After(s, run).delivered[k].got.frame
  {
    InitInv(s);
    RunKeepsInv(s, run);
    var e := After(s, run);
    var f := e.delivered[j].got.frame;
    assert Places(e, f) <= 1;
    SumByPair(e.delivered, Returned(f), j, k);
  }

  // ------------------------------------------- messages read, messages sent

  /** The peer wrote these messages, and perhaps the beginning of one more. */
  predicate Sent(stream: seq<Byte>, sent: seq<Message>, cut: seq<Byte>) {
    && (forall i :: 0 <= i < |sent| ==> Sendable(sent[i]))
    && stream == Wire(sent) + cut && NextFrame(cut) == Cut
  }

  /** What was read is what was sent so far, and reading goes on at the next frame. */
  predicate InStep(s: State, sent: seq<Message>)
    requires forall i :: 0 <= i < |sent| ==> Sendable(sent[i])
  {
    s.taken <= sent && s.pos == |Wire(sent[..|s.taken|])|
  }

  function Sizes(ms: seq<Message>): nat {
    if ms == [] then 0 else Sizes(ms[..|ms| - 1]) + HEADER_SIZE + PayloadSize(ms[|ms| - 1].entries)
  }

  lemma {:induction false} WireSize(ms: seq<Message>)
    requires forall i :: 0 <= i < |ms| ==> Sendable(ms[i])
    ensures |Wire(ms)| == Sizes(ms)
  {
    hide Sendable, Serialize, NextFrame, PayloadSize;
    if ms != [] {
      var n := |ms| - 1;
      assert Sendable(ms[n]);
      WireSize(ms[..n]);
      WireAppend(ms[..n], ms[n]);
      SerializedHeader(ms[n]);
      assert ms[..n] + [ms[n]] == ms;
    }
  }

  /** A frame is never shorter than what its message serializes to. */
  lemma FrameTakes(s: seq<Byte>)
    requires NextFrame(s).Frame?
    ensures |s| - |NextFrame(s).rest| >= HEADER_SIZE + PayloadSize(NextFrame(s).message.entries)
  {
    var n := HEADER_SIZE + Get(s[4..8]);
    assert s[..n][4..8] == s[4..8];
    RereadStable(s[..n]);
  }

  /** Every byte taken is part of a message read, or lost. */
  predicate Tally(s: State) {
    s.pos <= |s.stream| && s.pos >= s.lost + Sizes(s.taken)
  }

  lemma ReadTally(s: State)
    requires Readable(s) && Tally(s)
    ensures Tally(Read(s)) && Read(s).pos <= |s.stream|
  {
    FrameTakes(s.stream[s.pos..]);
    hide NextFrame, PayloadSize;
    assert Read(s).taken[|s.taken|] == NextFrame(s.stream[s.pos..]).message;
  }

  lemma StepKeepsTally(s: State, a: Action)
    requires Enabled(s, a) && Tally(s)
    ensures Tally(Step(s, a))
    ensures Step(s, a).lost == s.lost + if a.Fail? then a.gone else 0
  {
    hide NextFrame, Sizes, Read, Readable, ReplyIndex;
    if a.Continue? && (s.threads[a.i].SyncRead? || s.threads[a.i].RecvRead?) {
      ReadTally(s);
    }
  }

  lemma StepKeepsInStep(s: State, a: Action, sent: seq<Message>, cut: seq<Byte>)
    requires Enabled(s, a) && Sent(s.stream, sent, cut) && (s.lost == 0 ==> InStep(s, sent))
    ensures Step(s, a).stream == s.stream && (Step(s, a).lost == 0 ==> InStep(Step(s, a), sent))
  {
    hide Sendable, InStep, NextFrame, Enabled, Step, Wire;
    StepReads(s, a);
    var s' := Step(s, a);
    if s'.lost == 0 {
      if s'.taken != s.taken {
        ReadInStep(s, sent, cut);
        SameInStep(Read(s), s', sent);
      } else {
        SameInStep(s, s', sent);
      }
    }
  }

  /** What a step does to the stream: it reads a frame, loses bytes, or neither. */
  lemma StepReads(s: State, a: Action)
    requires Enabled(s, a)
    ensures var s' := Step(s, a);
      && s'.stream == s.stream && s'.lost >= s.lost
      && (s'.taken != s.taken ==> Readable(s) && s'.taken == Read(s).taken && s'.pos == Read(s).pos)
      && (s'.taken == s.taken && s'.lost == s.lost ==> s'.pos == s.pos)
  {
    hide NextFrame, FailsAfter, MayLose, Readable, Read, ReplyIndex;
    if a.Continue? {
      ResumeReads(s, a.i);
      hide Resume;
    }
  }

  lemma ResumeReads(s: State, i: nat)
    requires Enabled(s, Continue(i))
    ensures var s' := Resume(s, i);
      && s'.stream == s.stream && s'.lost == s.lost
      && (s'.taken != s.taken ==> Readable(s) && s'.taken == Read(s).taken && s'.pos == Read(s).pos)
      && (s'.taken == s.taken ==> s'.pos == s.pos)
  {
    hide NextFrame, FailsAfter, MayLose, Readable, Read, ReplyIndex;
  }

  lemma SameInStep(s: State, s': State, sent: seq<Message>)
    requires (forall i :: 0 <= i < |sent| ==> Sendable(sent[i])) && InStep(s, sent)
    requires s'.taken == s.taken && s'.pos == s.pos
    ensures InStep(s', sent)
  {
    hide Sendable, Wire;
  }

  lemma ReadInStep(s: State, sent: seq<Message>, cut: seq<Byte>)
    requires Readable(s) && Sent(s.stream, sent, cut) && InStep(s, sent)
    ensures InStep(Read(s), sent)
  {
    hide Sendable, NextFrame, Wire;
    var n := |s.taken|;
    WireSplit(sent, n);
    var rest := sent[n..];
    assert s.stream[s.pos..] == Wire(rest) + cut;
    StreamStarts(rest, cut);
    WireSplit(sent, n + 1);
    assert rest[1..] == sent[n + 1..] && rest[0] == sent[n];
    assert sent[..n] + [sent[n]] == sent[..n + 1];
  }

  lemma {:induction false} RunKeepsTally(s: State, run: seq<Action>, sent: seq<Message>, cut: seq<Byte>)
    requires LegalRun(s, run) && Tally(s) && Sent(s.stream, sent, cut) && (s.lost == 0 ==> InStep(s, sent))
    ensures var e := After(s, run);
      && Tally(e) && e.stream == s.stream && (e.lost == 0 ==> InStep(e, sent))
      && (e.lost == 0 <==> s.lost == 0 && NothingLost(run))
    decreases |run|
  {
    hide Enabled, Tally, InStep, Step, NothingLost;
    if run == [] {
      NoneYet();
    } else {
      StepKeepsTally(s, run[0]);
      StepKeepsInStep(s, run[0], sent, cut);
      hide Sendable, NextFrame, Wire;
      RunKeepsTally(Step(s, run[0]), run[1..], sent, cut);
      FirstLost(run);
    }
  }

  lemma NoneYet()
    ensures NothingLost([])
  {
  }

  lemma FirstLost(run: seq<Action>)
    requires run != []
    ensures NothingLost(run) <==> (run[0].Fail? ==> run[0].gone == 0) && NothingLost(run[1..])
  {
    assert forall k :: 0 < k < |run| ==> run[k] == run[1..][k - 1];
    assert forall k :: 0 <= k < |run| - 1 ==> run[1..][k] == run[k + 1];
  }

  /** No read failed after taking some of a frame. */
  predicate NothingLost(run: seq<Action>) {
    forall k :: 0 <= k < |run| && run[k].Fail? ==> run[k].gone == 0
  }

  /**
   * A connection stays in step with its peer exactly as long as no read fails
   * in the middle of a frame: then, and only then, what has been read is what
   * was sent, in order, and the next read begins on a frame boundary. And
   * then whatever is handed out is a message that was sent.
   */
  lemma InStepIffNothingLost(s: State, run: seq<Action>, sent: seq<Message>, cut: seq<Byte>)
    requires Init(s) && LegalRun(s, run) && Sent(s.stream, sent, cut)
    ensures var e := After(s, run);
      && (InStep(e, sent) <==> NothingLost(run))
      && (NothingLost(run) ==>
            forall k :: 0 <= k < |e.delivered| ==>
              var f := e.delivered[k].got.frame;
              f < |sent| && e.delivered[k].got == Pending(sent[f].id, sent[f].isReply, f))
  {
    assert Wire(sent[..0]) == [];
    RunKeepsTally(s, run, sent, cut);
    InitInv(s);
    RunKeepsInv(s, run);
    var e := After(s, run);
    hide After, LegalRun, Sendable;
    if InStep(e, sent) {
      assert e.taken == sent[..|e.taken|];
      WireSize(e.taken);
    }
    hide Wire;
  }

  // ------------------------------------------------- one thread: arrival order

  /** What receive_message returned, in order. */
  function Received(ds: seq<Delivery>): seq<Pending> {
    if ds == [] then []
    else Received(ds[..|ds| - 1]) + if ds[|ds| - 1].wanted.None? then [ds[|ds| - 1].got] else []
  }

  function Held(s: State): seq<Pending> {
    if |s.threads| == 1 && s.threads[0].SyncKeep? then [s.threads[0].held] else []
  }

  /** Received, then queued, then in hand: that is the order of arrival. */
  function Line(s: State): seq<Pending> {
    Received(s.delivered) + s.queue + Held(s)
  }

  predicate InOrder(s: State, line: seq<Pending>) {
    && (forall j, k :: 0 <= j < k < |line| ==> line[j].frame < line[k].frame)
    && (forall j :: 0 <= j < |line| ==> line[j].frame < |s.taken|)
  }

  predicate Single(s: State) {
    && |s.threads| == 1
    && (s.threads[0].RecvRead? || s.threads[0].RecvCheck? || s.threads[0].RecvWait? ==> s.queue == [])
    && InOrder(s, Line(s))
  }

  lemma ReceivedAppend(ds: seq<Delivery>, d: Delivery)
    ensures Received(ds + [d]) == Received(ds) + if d.wanted.None? then [d.got] else []
  {
    assert (ds + [d])[..|ds|] == ds;
  }

  /** What a step does to the line: at most one message leaves it to a sync call, or one joins its end. */
  lemma SingleLine(s: State, a: Action)
    requires Single(s) && Enabled(s, a)
    ensures var line, line' := Line(s), Line(Step(s, a));
      || line' == line
      || (exists k :: 0 <= k < |line| && line' == line[..k] + line[k + 1..])
      || (var s' := Step(s, a); |s'.taken| == |s.taken| + 1 && line' == line + [FrameAt(s', |s.taken|)])
  {
    if a.Continue? {
      match s.threads[0] {
        case SyncTake(_) => SingleTake(s);
        case SyncRead(_) => SingleRead(s);
        case RecvRead => SingleRead(s);
        case SyncKeep(_, _) => assert Line(Step(s, a)) == Line(s);
        case _ => SingleMove(s, a);
      }
    } else {
      SingleMove(s, a);
    }
  }

  lemma PopLine(r: seq<Pending>, q: seq<Pending>, held: seq<Pending>)
    requires q != []
    ensures (r + [q[0]]) + q[1..] + held == r + q + held
  {
  }

  /** The queue's head is received, or nothing moves. */
  lemma SingleMove(s: State, a: Action)
    requires Single(s) && Enabled(s, a)
    requires a.Continue? ==> s.threads[0].SyncWait? || s.threads[0].RecvWait? || s.threads[0].RecvCheck?
    ensures Line(Step(s, a)) == Line(s)
  {
    hide Received, InOrder, NextFrame, FailsAfter, MayLose, Readable, Read, ReplyIndex;
    if a.BeginReceive? && s.queue != [] {
      ReceivedAppend(s.delivered, Delivery(None, s.queue[0]));
      PopLine(Received(s.delivered), s.queue, []);
    }
  }

  lemma SingleRead(s: State)
    requires Single(s) && Enabled(s, Continue(0)) && (s.threads[0].SyncRead? || s.threads[0].RecvRead?)
    ensures var s' := Resume(s, 0);
      |s'.taken| == |s.taken| + 1 && (Line(s') == Line(s) || Line(s') == Line(s) + [FrameAt(s', |s.taken|)])
  {
    hide Received, InOrder, NextFrame;
    var f := FrameAt(Read(s), |s.taken|);
    var r := Received(s.delivered);
    assert Line(s) == r + s.queue;
    match s.threads[0]
    case RecvRead =>
      ReceivedAppend(s.delivered, Delivery(None, f));
      assert r + [f] + [] == r + [] + [f];
    case SyncRead(id) =>
      ReceivedAppend(s.delivered, Delivery(Some(id), f));
      assert r + [] == r;
  }

  lemma SingleTake(s: State)
    requires Single(s) && s.threads[0].SyncTake?
    ensures var line, line' := Line(s), Line(Resume(s, 0));
      line' == line || exists k :: 0 <= k < |line| && line' == line[..k] + line[k + 1..]
  {
    hide Received, InOrder, ReplyIndex;
    var s' := Resume(s, 0);
    var id := s.threads[0].id;
    var i := ReplyIndex(s.queue, id);
    if i < |s.queue| {
      ReceivedAppend(s.delivered, Delivery(Some(id), s.queue[i]));
      var k := |Received(s.delivered)| + i;
      var line := Line(s);
      assert Line(s') == line[..k] + line[k + 1..];
    }
  }

  lemma SingleStep(s: State, a: Action)
    requires Single(s) && Enabled(s, a)
    ensures Single(Step(s, a))
  {
    hide Received, InOrder, Line, ReplyIndex, NextFrame, FailsAfter, MayLose, Readable, Read;
    SingleLine(s, a);
    SingleOrder(s, Line(s), Step(s, a), Line(Step(s, a)));
  }

  lemma SingleOrder(s: State, line: seq<Pending>, s': State, line': seq<Pending>)
    requires InOrder(s, line) && |s'.taken| >= |s.taken|
    requires || line' == line
             || (exists k :: 0 <= k < |line| && line' == line[..k] + line[k + 1..])
             || (|s'.taken| == |s.taken| + 1 && line' == line + [FrameAt(s', |s.taken|)])
    ensures InOrder(s', line')
  {
  }

  lemma {:induction false} SingleRun(s: State, run: seq<Action>)
    requires Single(s) && LegalRun(s, run)
    ensures Single(After(s, run))
    decreases |run|
  {
    if run != [] {
      SingleStep(s, run[0]);
      SingleRun(Step(s, run[0]), run[1..]);
    }
  }

  lemma {:induction false} ReceivedGenuine(s: State, ds: seq<Delivery>, j: nat)
    requires forall k :: 0 <= k < |ds| ==> Genuine(s, ds[k].got)
    requires j < |Received(ds)|
    ensures Genuine(s, Received(ds)[j])
  {
    if ds != [] && j < |Received(ds[..|ds| - 1])| {
      ReceivedGenuine(s, ds[..|ds| - 1], j);
    }
  }

  /**
   * With one calling thread, everything but the claimed replies is received in
   * the order it was read; and if no read failed in the middle of a frame,
   * in the order it was sent.
   */
  lemma SingleThreadOrder(s: State, run: seq<Action>, sent: seq<Message>, cut: seq<Byte>)
    requires Init(s) && |s.threads| == 1 && LegalRun(s, run) && Sent(s.stream, sent, cut)
    ensures var e := After(s, run);
      var r := Received(e.delivered);
      && (forall j, k :: 0 <= j < k < |r| ==> r[j].frame < r[k].frame)
      && (forall j :: 0 <= j < |r| ==> r[j].frame < |e.taken| && r[j] == FrameAt(e, r[j].frame))
      && (NothingLost(run) ==>
            forall j :: 0 <= j < |r| ==>
              r[j].frame < |sent| && r[j] == Pending(sent[r[j].frame].id, sent[r[j].frame].isReply, r[j].frame))
  {
    assert Line(s) == [];
    SingleRun(s, run);
    InitInv(s);
    RunKeepsInv(s, run);
    InStepIffNothingLost(s, run, sent, cut);
    var e := After(s, run);
    hide After, LegalRun, Sent, Received;
    var r := Received(e.delivered);
    forall j | 0 <= j < |r|
      ensures Line(e)[j] == r[j] && Genuine(e, r[j])
    {
      ReceivedGenuine(e, e.delivered, j);
    }
  }
}
