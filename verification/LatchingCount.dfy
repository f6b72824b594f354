/**
 * The latching reference count of the Blocks runtime under concurrency.
 *
 * One heap object, one flag word, any number of threads. Every load of the
 * word and every compare-and-swap is a step of its own, so a run is any
 * interleaving of them.
 */
module LatchingCount {
  import opened Common

  const MASK: int := 0xffff    // BLOCK_REFCOUNT_MASK
  const SPAN: int := 0x10000   // MASK + 1

  /** `word & BLOCK_REFCOUNT_MASK` for a two's complement word. */
  function Count(word: int): nat {
    word % SPAN
  }

  /** The bits above the count: BLOCK_NEEDS_FREE and its neighbours. */
  function Upper(word: int): int {
    word / SPAN
  }

  /** Blocks decrement at once; byrefs first test the count for underflow. */
  datatype Kind = Block | Byref

  datatype Pc =
    | Idle
    | RetainLoad
    | RetainCas(seen: int)
    | ReleaseCheck
    | ReleaseLoad
    | ReleaseCas(seen: int)
    | SawZero                 // the decrement returned 0: dispose and free are next

  /** `owned` includes the reference a release in flight is giving up. */
  datatype Thread = Thread(pc: Pc, owned: nat)

  datatype State = State(kind: Kind, word: int, threads: seq<Thread>, freed: bool, disposals: nat)

  function Owned(t: Thread): nat {
    t.owned
  }

  function Disposing(t: Thread): nat {
    if t.pc.SawZero? then 1 else 0
  }

  function Owners(s: State): nat {
    SumBy(s.threads, Owned)
  }

  function Disposers(s: State): nat {
    SumBy(s.threads, Disposing)
  }

  datatype Action =
    | BeginRetain(i: nat)
    | BeginRelease(i: nat)
    | Continue(i: nat)          // the next load, compare-and-swap or dispose of thread i
    | HandOver(i: nat, j: nat)  // thread i passes one of its references to thread j

  /** The calling discipline: operate only through a reference one owns. */
  predicate Enabled(s: State, a: Action) {
    match a
    case BeginRetain(i) => i < |s.threads| && s.threads[i].pc.Idle? && s.threads[i].owned > 0
    case BeginRelease(i) => i < |s.threads| && s.threads[i].pc.Idle? && s.threads[i].owned > 0
    case Continue(i) => i < |s.threads| && !s.threads[i].pc.Idle?
    case HandOver(i, j) =>
      i < |s.threads| && j < |s.threads| && i != j && s.threads[i].pc.Idle? && s.threads[i].owned > 0
  }

  function SetThread(s: State, i: nat, t: Thread): State
    requires i < |s.threads|
  {
    s.(threads := s.threads[i := t])
  }

  function Give(t: Thread): Thread
    requires t.owned > 0
  {
    t.(pc := Idle, owned := t.owned - 1)
  }

  /** The continuation of thread i, one atomic access at a time. */
  function Resume(s: State, i: nat): State
    requires i < |s.threads| && !s.threads[i].pc.Idle?
    requires !s.threads[i].pc.SawZero? ==> s.threads[i].owned > 0
  {
    var t := s.threads[i];
    match t.pc
    case RetainLoad =>
      if Count(s.word) == MASK then SetThread(s, i, Thread(Idle, t.owned + 1))
      else SetThread(s, i, t.(pc := RetainCas(s.word)))
    case RetainCas(seen) =>
      if s.word == seen then SetThread(s, i, Thread(Idle, t.owned + 1)).(word := seen + 1)
      else SetThread(s, i, t.(pc := RetainLoad))
    case ReleaseCheck =>
      if Count(s.word) == 0 then SetThread(s, i, Give(t))   // "underflowed": reported, not decremented
      else SetThread(s, i, t.(pc := ReleaseLoad))
    case ReleaseLoad =>
      if Count(s.word) == MASK then SetThread(s, i, Give(t))
      else if Count(s.word) == 0 then SetThread(s, i, Give(t).(pc := SawZero))
      else SetThread(s, i, t.(pc := ReleaseCas(s.word)))
    case ReleaseCas(seen) =>
      if s.word != seen then SetThread(s, i, t.(pc := ReleaseLoad))
      else if Count(seen - 1) == 0 then SetThread(s, i, Give(t).(pc := SawZero)).(word := seen - 1)
      else SetThread(s, i, Give(t)).(word := seen - 1)
    case SawZero =>
      SetThread(s, i, t.(pc := Idle)).(freed := true, disposals := s.disposals + 1)
  }

  function Step(s: State, a: Action): State
    requires Enabled(s, a)
    requires InFlightOwn(s)
  {
    match a
    case BeginRetain(i) => SetThread(s, i, s.threads[i].(pc := RetainLoad))
    case BeginRelease(i) =>
      SetThread(s, i, s.threads[i].(pc := if s.kind.Byref? then ReleaseCheck else ReleaseLoad))
    case Continue(i) => Resume(s, i)
    case HandOver(i, j) =>
      var s1 := SetThread(s, i, Give(s.threads[i]));
      SetThread(s1, j, s1.threads[j].(owned := s1.threads[j].owned + 1))
  }

  /** A thread between the first and last access of an operation still owns its reference. */
  predicate InFlightOwn(s: State) {
    forall i :: 0 <= i < |s.threads| ==>
      s.threads[i].pc.Idle? || s.threads[i].pc.SawZero? || s.threads[i].owned > 0
  }

  /** A value remembered for a compare-and-swap was neither latched nor zero. */
  predicate SeenOpen(s: State) {
    forall i :: 0 <= i < |s.threads| ==>
      && (s.threads[i].pc.RetainCas? ==> Count(s.threads[i].pc.seen) != MASK)
      && (s.threads[i].pc.ReleaseCas? ==> Count(s.threads[i].pc.seen) != MASK && Count(s.threads[i].pc.seen) != 0)
  }

  predicate Latched(s: State) {
    Count(s.word) == MASK
  }

  /** What every step keeps. */
  predicate Inv(s: State) {
    && InFlightOwn(s)
    && SeenOpen(s)
    && (!Latched(s) ==> Count(s.word) == Owners(s))
    && s.freed == (s.disposals > 0)
    && (Count(s.word) > 0 ==> Disposers(s) == 0 && s.disposals == 0)
    && (Count(s.word) == 0 ==> Disposers(s) + s.disposals == 1)
  }

  /** A freshly counted object: idle threads between them own exactly the count. */
  predicate Init(s: State) {
    && (forall i :: 0 <= i < |s.threads| ==> s.threads[i].pc.Idle?)
    && 0 < Owners(s) == Count(s.word)
    && !s.freed && s.disposals == 0
  }

  lemma InitInv(s: State)
    requires Init(s)
    ensures Inv(s)
  {
    SumByZero(s.threads, Disposing);
  }

  lemma WordNext(word: int)
    ensures Count(word) != MASK ==> Count(word + 1) == Count(word) + 1 && Upper(word + 1) == Upper(word)
    ensures Count(word) != 0 ==> Count(word - 1) == Count(word) - 1 && Upper(word - 1) == Upper(word)
  {
  }

  lemma ThreadUpdate(s: State, i: nat, t: Thread)
    requires i < |s.threads|
    ensures SumBy(s.threads[i := t], Owned) + s.threads[i].owned == Owners(s) + t.owned
    ensures SumBy(s.threads[i := t], Disposing) + Disposing(s.threads[i]) == Disposers(s) + Disposing(t)
    ensures Owners(s) >= s.threads[i].owned && Disposers(s) >= Disposing(s.threads[i])
  {
    SumByUpdate(s.threads, Owned, i, t);
    SumByUpdate(s.threads, Disposing, i, t);
    SumByAtLeast(s.threads, Owned, i);
    SumByAtLeast(s.threads, Disposing, i);
  }

  lemma BeginKeepsInv(s: State, i: nat, pc: Pc)
    requires Inv(s) && i < |s.threads| && s.threads[i].pc.Idle? && s.threads[i].owned > 0
    requires pc.RetainLoad? || pc.ReleaseCheck? || pc.ReleaseLoad?
    ensures Inv(SetThread(s, i, s.threads[i].(pc := pc)))
  {
    ThreadUpdate(s, i, s.threads[i].(pc := pc));
  }

  lemma HandOverKeepsInv(s: State, i: nat, j: nat)
    requires Inv(s) && Enabled(s, HandOver(i, j))
    ensures Inv(Step(s, HandOver(i, j)))
  {
    var s1 := SetThread(s, i, Give(s.threads[i]));
    ThreadUpdate(s, i, s1.threads[i]);
    var t := s1.threads[j].(owned := s1.threads[j].owned + 1);
    ThreadUpdate(s1, j, t);
  }

  lemma RetainKeepsInv(s: State, i: nat)
    requires Inv(s) && i < |s.threads| && (s.threads[i].pc.RetainLoad? || s.threads[i].pc.RetainCas?)
    ensures Inv(Resume(s, i))
  {
    ThreadUpdate(s, i, Resume(s, i).threads[i]);
    if s.threads[i].pc.RetainCas? && s.word == s.threads[i].pc.seen {
      WordNext(s.word);
    }
  }

  lemma ReleaseKeepsInv(s: State, i: nat)
    requires Inv(s) && i < |s.threads| && (s.threads[i].pc.ReleaseCheck? || s.threads[i].pc.ReleaseLoad?)
    ensures Inv(Resume(s, i))
  {
    ThreadUpdate(s, i, Resume(s, i).threads[i]);
  }

  lemma DecrementKeepsInv(s: State, i: nat)
    requires Inv(s) && i < |s.threads| && s.threads[i].pc.ReleaseCas?
    ensures Inv(Resume(s, i))
  {
    ThreadUpdate(s, i, Resume(s, i).threads[i]);
    if s.word == s.threads[i].pc.seen {
      WordNext(s.word);
    }
  }

  lemma DisposeKeepsInv(s: State, i: nat)
    requires Inv(s) && i < |s.threads| && s.threads[i].pc.SawZero?
    ensures Inv(Resume(s, i))
  {
    ThreadUpdate(s, i, Resume(s, i).threads[i]);
  }

  lemma ResumeWord(s: State, i: nat)
    requires Inv(s) && i < |s.threads| && !s.threads[i].pc.Idle?
    ensures Upper(Resume(s, i).word) == Upper(s.word)
    ensures Latched(s) ==> Resume(s, i).word == s.word
  {
    WordNext(s.word);
  }

  /**
   * Every interleaving step keeps the invariant, never touches a bit above
   * the count, and a latched count stays latched.
   */
  lemma StepKeepsInv(s: State, a: Action)
    requires Inv(s) && Enabled(s, a)
    ensures Inv(Step(s, a))
    ensures Upper(Step(s, a).word) == Upper(s.word)
    ensures Latched(s) ==> Step(s, a).word == s.word
  {
    match a
    case BeginRetain(i) => BeginKeepsInv(s, i, RetainLoad);
    case BeginRelease(i) => BeginKeepsInv(s, i, if s.kind.Byref? then ReleaseCheck else ReleaseLoad);
    case HandOver(i, j) => HandOverKeepsInv(s, i, j);
    case Continue(i) =>
      ResumeWord(s, i);
      match s.threads[i].pc {
        case RetainLoad => RetainKeepsInv(s, i);
        case RetainCas(_) => RetainKeepsInv(s, i);
        case ReleaseCheck => ReleaseKeepsInv(s, i);
        case ReleaseLoad => ReleaseKeepsInv(s, i);
        case ReleaseCas(_) => DecrementKeepsInv(s, i);
        case SawZero => DisposeKeepsInv(s, i);
      }
  }

  /** Every state of a run, each step enabled where it is taken. */
  predicate LegalRun(s: State, run: seq<Action>)
    decreases |run|
  {
    run == [] || (Enabled(s, run[0]) && InFlightOwn(s) && LegalRun(Step(s, run[0]), run[1..]))
  }

  function After(s: State, run: seq<Action>): State
    requires LegalRun(s, run)
    decreases |run|
  {
    if run == [] then s else After(Step(s, run[0]), run[1..])
  }

  lemma {:induction false} RunKeepsInv(s: State, run: seq<Action>)
    requires Inv(s) && LegalRun(s, run)
    ensures Inv(After(s, run))
    ensures Upper(After(s, run).word) == Upper(s.word)
    ensures Latched(s) ==> After(s, run).word == s.word
    decreases |run|
  {
    if run != [] {
      StepKeepsInv(s, run[0]);
      RunKeepsInv(Step(s, run[0]), run[1..]);
    }
  }

  /**
   * Over every run from a freshly counted object: the count is the number of
   * outstanding owners or latched; the object is freed at most once, by the
   * one release that saw zero, and only after the last owner let go; and no
   * thread that still has an access to make can find it freed.
   */
  lemma CountIsOwnersOrLatched(s: State, run: seq<Action>)
    requires Init(s) && LegalRun(s, run)
    ensures var e := After(s, run);
      && (Count(e.word) == Owners(e) || Latched(e))
      && Upper(e.word) == Upper(s.word)
      && Disposers(e) + e.disposals <= 1
      && (Disposers(e) + e.disposals == 1 <==> !Latched(e) && Owners(e) == 0)
      && (e.freed ==> forall i :: 0 <= i < |e.threads| ==> e.threads[i].pc.Idle? && e.threads[i].owned == 0)
  {
    InitInv(s);
    RunKeepsInv(s, run);
    var e := After(s, run);
    if e.freed {
      forall i | 0 <= i < |e.threads|
        ensures e.threads[i].pc.Idle? && e.threads[i].owned == 0
      {
        SumByAtLeast(e.threads, Owned, i);
        SumByAtLeast(e.threads, Disposing, i);
      }
    }
  }

  /** Once latched, at any point of any run, the object is never disposed of. */
  lemma LatchedIsForever(s: State, run: seq<Action>)
    requires Inv(s) && Latched(s) && LegalRun(s, run)
    ensures After(s, run).word == s.word
    ensures Disposers(After(s, run)) == 0 && !After(s, run).freed
  {
    RunKeepsInv(s, run);
  }
}
