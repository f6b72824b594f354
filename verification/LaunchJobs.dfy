/**
 * The registry and its operations, on jobs updated in place. Every operation
 * appends to the history the events it performed; the fields of all jobs and
 * the set of unreaped children are at all times what the history says.
 */
module LaunchJobs {
  import opened Common
  import opened LaunchHistory
  import opened LaunchSystem
  import opened LaunchTracking
  import opened LaunchTick

  const OK := 0
  const EINVAL := -1
  const EIO := -4
  const ENOENT := -5
  const ESTATE := -6
  const EEXIST := -7
  const ETIMEOUT := -8

  class Job {
    ghost const number: nat
    const spec: Spec
    var state: JobState
    var pid: int
    var lastExit: int
    var signaled: bool
    var startCount: nat
    var restartAt: int

    constructor (ghost number: nat, spec: Spec)
      ensures this.number == number && this.spec == spec && Fields() == FRESH
    {
      this.number, this.spec := number, spec;
      state, pid, lastExit, signaled, startCount, restartAt := LOADED, -1, 0, false, 0, 0;
    }

    function Fields(): Status
      reads `state, `pid, `lastExit, `signaled, `startCount, `restartAt
    {
      Status(state, pid, lastExit, signaled, startCount, restartAt)
    }

    ghost function View(): Card
      reads `state, `pid, `lastExit, `signaled, `startCount, `restartAt
    {
      Card(number, spec, Fields())
    }

    method Launch(pid: int)
      modifies `state, `pid, `startCount, `restartAt
      ensures Fields() == old(Fields()).(
        state := RUNNING, pid := pid, startCount := old(startCount) + 1, restartAt := 0)
    {
      state, this.pid, startCount, restartAt := RUNNING, pid, startCount + 1, 0;
    }

    /** The child is gone, with what waitpid reported. */
    method Collect(exit: Exit)
      modifies `pid, `signaled, `lastExit
      ensures Fields() == Exited(old(Fields()), exit)
    {
      match exit {
        case ExitCode(code) => signaled, lastExit := false, code;
        case Killed(signal) => signaled, lastExit := true, -signal;
      }
      pid := -1;
    }

    method Rest(state: JobState, restartAt: int)
      modifies `state, `restartAt
      ensures Fields() == old(Fields()).(state := state, restartAt := restartAt)
    {
      this.state, this.restartAt := state, restartAt;
    }

    /** should_restart, on what Collect left in the fields. */
    predicate ShouldRestart(exitedCleanly: bool)
      reads this
    {
      match spec.keepAlive
      case Always => true
      case OnFailure => !exitedCleanly
      case OnSuccess => exitedCleanly
      case Never => false
    }
  }

  // --------------------------------------------------- the registry

  ghost function Cards(jobs: seq<Job>): (cs: seq<Card>)
    reads jobs`state, jobs`pid, jobs`lastExit, jobs`signaled, jobs`startCount, jobs`restartAt
    ensures |cs| == |jobs|
    ensures forall i {:trigger cs[i]} {:trigger jobs[i]} :: 0 <= i < |jobs| ==> cs[i] == jobs[i].View()
  {
    if jobs == [] then [] else [jobs[0].View()] + Cards(jobs[1..])
  }

  lemma CardsPlus(jobs: seq<Job>, j: Job)
    ensures Cards(jobs + [j]) == Cards(jobs) + [j.View()]
  {
    hide Cards;
  }

  lemma OmitAt<T>(s: seq<T>, i: nat, k: nat)
    requires i < |s| && k + 1 < |s|
    ensures |Omit(s, i)| == |s| - 1 && Omit(s, i)[k] == s[if k < i then k else k + 1]
  {
  }

  lemma CardsWithout(jobs: seq<Job>, i: nat)
    requires i < |jobs|
    ensures Cards(Omit(jobs, i)) == Omit(Cards(jobs), i)
  {
    hide Cards, Omit, Job.View;
    assert |Omit(jobs, i)| == |Omit(Cards(jobs), i)| == |jobs| - 1 by {
      if |jobs| > 1 {
        OmitAt(jobs, i, 0);
        OmitAt(Cards(jobs), i, 0);
      } else {
        OmitOnly(jobs);
        OmitOnly(Cards(jobs));
      }
    }
    forall k | 0 <= k < |jobs| - 1
      ensures Cards(Omit(jobs, i))[k] == Omit(Cards(jobs), i)[k]
    {
      OmitAt(jobs, i, k);
      OmitAt(Cards(jobs), i, k);
    }
  }

  lemma OmitOnly<T>(s: seq<T>)
    requires |s| == 1
    ensures Omit(s, 0) == []
  {
  }

  ghost function Names(jobs: seq<Job>): set<string> {
    set j | j in jobs :: j.spec.name
  }

  /** The loads, and the specs, of the jobs from the n-th on. */
  ghost function NewLoads(jobs: seq<Job>, n: nat): History
    requires n <= |jobs|
  {
    seq(|jobs| - n, k requires 0 <= k < |jobs| - n => Load(jobs[n + k].number, jobs[n + k].spec))
  }

  function SpecsFrom(jobs: seq<Job>, n: nat): seq<Spec>
    requires n <= |jobs|
  {
    seq(|jobs| - n, k requires 0 <= k < |jobs| - n => jobs[n + k].spec)
  }

  lemma OneMoreLoad(jobs: seq<Job>, n: nat, j: Job)
    requires n <= |jobs|
    ensures NewLoads(jobs + [j], n) == NewLoads(jobs, n) + [Load(j.number, j.spec)]
    ensures SpecsFrom(jobs + [j], n) == SpecsFrom(jobs, n) + [j.spec]
  {
  }

  predicate HasName(jobs: seq<Job>, name: string) {
    exists k :: 0 <= k < |jobs| && jobs[k].spec.name == name
  }

  /** A file adds a job exactly when it is a good property list for a label no job has. */
  lemma AddsIfAbsent(jobs: seq<Job>, n: nat, f: File)
    requires n <= |jobs|
    ensures Adds(f, SpecsFrom(jobs, n), Names(jobs[..n])) <==>
      IsPlist(f.name) && f.parsed.Good? && !HasName(jobs, f.parsed.spec.name)
  {
    if f.parsed.Good? && HasName(jobs, f.parsed.spec.name) {
      var k :| 0 <= k < |jobs| && jobs[k].spec.name == f.parsed.spec.name;
      if k < n {
        assert jobs[k] in jobs[..n];
      } else {
        assert SpecsFrom(jobs, n)[k - n] == jobs[k].spec;
      }
    }
  }

  lemma Longer(h: History, s: History, e: Event)
    ensures h + s + [e] == h + (s + [e])
  {
  }

  lemma NoneDue(jobs: seq<Job>, cs: seq<Card>, time: int)
    requires SweptTo(RestartingDue(time), cs, Cards(jobs), |jobs|)
    ensures forall k {:trigger jobs[k]} :: 0 <= k < |jobs| && jobs[k].state == WAITING ==> jobs[k].restartAt > time
  {
    hide Cards, SweptTo;
    NoneStillDue(cs, Cards(jobs), time);
    forall k {:trigger jobs[k]} | 0 <= k < |jobs| && jobs[k].state == WAITING
      ensures jobs[k].restartAt > time
    {
      assert Cards(jobs)[k] == jobs[k].View();
    }
  }

  lemma NoFiles(jobs: seq<Job>, files: seq<File>)
    ensures NewLoads(jobs, |jobs|) == [] && SpecsFrom(jobs, |jobs|) == []
    ensures NewSpecs(files[..0], Names(jobs)) == [] && Plists(files[..0]) == 0
  {
  }

  lemma NextFile(files: seq<File>, i: nat, taken: set<string>)
    requires i < |files|
    ensures var earlier := NewSpecs(files[..i], taken);
      NewSpecs(files[..i + 1], taken) == if Adds(files[i], earlier, taken) then earlier + [files[i].parsed.spec]
        else earlier
    ensures Plists(files[..i + 1]) == Plists(files[..i]) + if IsPlist(files[i].name) then 1 else 0
  {
    assert files[..i + 1][..i] == files[..i];
  }

  class Registry {
    const os: System
    var jobs: seq<Job>
    ghost var history: History

    ghost function Ledger(): Ledger
      reads this
    {
      Replay(history)
    }

    ghost predicate Valid()
      reads this, os, jobs
    {
      && os.Valid()
      && Tracks(history, Cards(jobs), Children(os.procs), os.clock)
      && OnlyOurs(os.touched)
    }

    /** launch_registry_create, in a process that has no children of the registry yet. */
    constructor (os: System)
      requires os.Valid() && Children(os.procs) == {} && os.touched == []
      ensures Valid() && this.os == os && jobs == [] && history == []
    {
      this.os, jobs, history := os, [], [];
    }

    lemma Kept()
      requires Valid()
      ensures Legal(history) && OnlyOurs(os.touched)
    {
      hide Legal, OnlyOurs;
    }

    lemma CardsApart()
      requires Valid()
      ensures DistinctNumbers(Cards(jobs)) && DistinctNames(Cards(jobs))
    {
      hide Tracks, Cards, DistinctNumbers, DistinctNames;
      NumbersDiffer(history, Cards(jobs), Children(os.procs), os.clock);
      NamesDiffer(history, Cards(jobs), Children(os.procs), os.clock);
    }

    /** Record an event whose effect on its job's fields and on the children has just been made. */
    ghost method Happened(cards: seq<Card>, running: set<int>, i: nat, e: Event)
      requires os.Valid() && OnlyOurs(os.touched)
      requires |cards| == |jobs| && i < |jobs|
      requires Tracks(history, cards, running, os.clock)
      requires Guard(cards[i], running, e) && Timely(Replay(history), e, os.clock)
      requires jobs[i].View() == Then(cards[i], e)
      requires forall k {:trigger cards[k]} :: 0 <= k < |jobs| && k != i ==> jobs[k].View() == cards[k]
      requires Children(os.procs) == PidsThen(cards[i], running, e)
      modifies this`history
      ensures Valid() && history == old(history) + [e]
      ensures Only(cards, Cards(jobs), cards[i].number)
    {
      hide Tracks, Guard, Then, PidsThen, Cards, Only;
      OnlyThen(cards, Cards(jobs), i, e);
      HappensTo(history, cards, Cards(jobs), running, os.clock, i, e);
      history := history + [e];
    }

    /** The part of launch_job_start before the job changes: its sockets, and the fork. */
    method Spawn(sockets: nat) returns (rc: int, pid: int)
      requires os.Valid()
      modifies os`procs, os`clock
      ensures os.Valid() && os.clock >= old(os.clock)
      ensures rc == OK ==>
        && pid > 0 && pid !in old(Children(os.procs)) && Children(os.procs) == old(Children(os.procs)) + {pid}
      ensures rc != OK ==> rc in {EINVAL, EIO} && Children(os.procs) == old(Children(os.procs))
    {
      rc, pid := OK, -1;
      var k := 0;
      while k < sockets && rc == OK
        invariant rc in {OK, EINVAL, EIO}
      {
        var listening: int := *;           // socket_create
        rc := if listening in {EINVAL, EIO} then listening else OK;
        k := k + 1;
      }
      if rc == OK {
        pid := os.Fork();
        rc := if pid < 0 then EIO else OK;
      }
    }

    /** launch_job_start. */
    method Start(j: Job, ghost cause: Cause) returns (rc: int, ghost at: int)
      requires Valid() && j in jobs
      requires j.state != RUNNING ==> MayTry(j.spec, j.Fields(), cause)
      requires cause == Restart ==> j.restartAt <= os.clock
      modifies this`history, j, os`procs, os`clock
      ensures Valid() && os.clock >= old(os.clock)
      ensures Only(old(Cards(jobs)), Cards(jobs), j.number)
      ensures rc == ESTATE <==> old(j.state) == RUNNING
      ensures rc == ESTATE ==> history == old(history) && unchanged(j)
      ensures rc == OK ==> j.pid !in old(Children(os.procs)) && old(os.clock) <= at <= os.clock
      ensures rc == OK ==> history == old(history) + [Event.Start(j.number, cause, at, j.pid)]
      ensures rc == OK ==> j.state == RUNNING
      ensures rc !in {OK, ESTATE} ==>
        && j.state == FAILED && rc in {EINVAL, EIO}
        && history == old(history) + [StartFailed(j.number, cause)]
    {
      hide Positive, OnlyOurs, Children, Tracks, Cards, Only;
      OnlyThen(Cards(jobs), Cards(jobs), |jobs|, StartFailed(j.number, cause));
      at := os.clock;
      if j.state == RUNNING {
        return ESTATE, at;
      }
      NumbersDiffer(history, Cards(jobs), Children(os.procs), os.clock);
      ghost var cards, running := Cards(jobs), Children(os.procs);
      ghost var i :| 0 <= i < |jobs| && jobs[i] == j;
      var pid;
      rc, pid := Spawn(j.spec.sockets);
      at := os.clock;
      Later(history, cards, running, old(os.clock), at);
      if rc != OK {
        j.state := FAILED;
        Happened(cards, running, i, StartFailed(j.number, cause));
      } else {
        j.Launch(pid);
        Happened(cards, running, i, Event.Start(j.number, cause, at, pid));
      }
    }

    /** What the tick does about an exit. */
    method Conclude(j: Job, exit: Exit) returns (ghost at: int)
      requires os.Valid()
      modifies j, os`procs, os`clock
      ensures os.Valid() && at == os.clock >= old(os.clock)
      ensures Children(os.procs) == Children(old(os.procs)) && Settles(old(os.procs), os.procs)
      ensures j.View() == Then(old(j.View()), Event.Reap(j.number, at, exit))
    {
      j.Collect(exit);
      if j.ShouldRestart(!j.signaled && j.lastExit == 0) {
        var now := os.Now();
        j.Rest(WAITING, now + j.spec.throttle);
      } else {
        j.Rest(EXITED, 0);
      }
      at := os.clock;
    }

    /** One turn of the tick's first loop, on a running job. */
    method Reap(j: Job) returns (changed: bool, ghost at: int, ghost exit: Exit)
      requires Valid() && j in jobs && j.state == RUNNING
      modifies this`history, j, os
      ensures NoSignals(old(os.calls), os.calls)
      ensures Valid() && os.clock >= old(os.clock)
      ensures changed ==> history == old(history) + [Event.Reap(j.number, at, exit)]
      ensures changed ==> j.View() == Then(old(j.View()), Event.Reap(j.number, at, exit))
      ensures changed ==> old(os.clock) <= at <= os.clock
      ensures !changed ==> history == old(history) && unchanged(j)
      ensures old(j.pid) in old(Children(os.procs))
      ensures os.interrupts >= old(os.interrupts)
      ensures old(os.procs)[old(j.pid)].exit.Some? && os.interrupts == old(os.interrupts) ==>
        changed && exit == old(os.procs)[old(j.pid)].exit.value
      ensures Settles(old(os.procs), os.procs) && Children(os.procs) <= old(Children(os.procs))
    {
      hide NoSignals, Positive, OnlyOurs, Children, Tracks, Cards, Settles;
      NumbersDiffer(history, Cards(jobs), Children(os.procs), os.clock);
      ghost var cards, running := Cards(jobs), Children(os.procs);
      ghost var i :| 0 <= i < |jobs| && jobs[i] == j;
      RunningIsChild(history, cards, running, os.clock, i);
      exit := ExitCode(0);
      var r := os.WaitNoHang(j.pid);
      Later(history, cards, running, old(os.clock), os.clock);
      if r.Alive? || r.Interrupted? {
        return false, os.clock, exit;
      }
      exit := r.exit;
      ghost var mid := os.procs;
      at := Conclude(j, r.exit);
      changed := true;
      SettlesOn(old(os.procs), mid, os.procs);
      Later(history, cards, running, old(os.clock), at);
      Happened(cards, running, i, Event.Reap(j.number, at, exit));
    }

    /** The wait in launch_job_stop: SIGTERM, a grace period, then SIGKILL. */
    method Terminate(pid: int, timeout: int) returns (exit: Exit, ghost calls: seq<Call>)
      requires os.Valid() && pid in Children(os.procs)
      requires OnlyOurs(os.touched)
      modifies os
      ensures os.Valid() && os.clock >= old(os.clock) && os.interrupts >= old(os.interrupts)
      ensures OnlyOurs(os.touched)
      ensures Children(os.procs) == Children(old(os.procs)) - {pid}
      ensures old(os.procs)[pid].exit.Some? && os.interrupts == old(os.interrupts) ==>
        exit == old(os.procs)[pid].exit.value
      ensures os.calls == old(os.calls) + calls && Ends(calls, pid, timeout, exit)
    {
      hide Ending, Ends, Settles, OnlyOurs, System.Valid, Children;
      calls := [Signal(pid, SIGTERM, os.clock)];
      assert Ending(calls, pid) by { JustSignalled(pid, os.clock); }
      os.Kill(pid, SIGTERM);
      ghost var before := os.procs;
      var start := os.Now();
      var deadline := start + if timeout > 0 then timeout else 0;
      ghost var mid := os.procs;
      while true
        invariant mid == os.procs
        invariant os.Valid() && os.clock >= old(os.clock) && os.interrupts >= old(os.interrupts)
        invariant Children(os.procs) == Children(before) && Settles(before, os.procs)
        invariant OnlyOurs(os.touched)
        invariant os.calls == old(os.calls) + calls
        invariant calls != [] && Ending(calls, pid)
        invariant deadline >= calls[0].at + NonNegative(timeout)
        decreases deadline - os.clock
      {
        SettledAt(before, mid, pid);
        var r := os.WaitNoHang(pid);       // never NoChild: nobody else reaps our children
        if r.Gone? {
          Went(calls, pid, timeout, r.exit, os.clock);
          calls := calls + [WaitedFor(pid, r.exit, os.clock)];
          return r.exit, calls;
        }
        StillThere(calls, pid, os.clock);
        calls := calls + [Polled(pid, os.clock)];
        SettlesOn(before, mid, os.procs);
        mid := os.procs;
        var now := os.Now();
        if now >= deadline {
          ghost var at := os.clock;
          os.Kill(pid, SIGKILL);
          os.Wait(pid);
          ghost var last := os.calls[|os.calls| - 1];
          Escalated(calls, pid, timeout, at, last);
          Behind(old(os.calls), calls, Signal(pid, SIGKILL, at), last);
          calls := calls + [Signal(pid, SIGKILL, at)] + [last];
          return Killed(SIGKILL), calls;
        }
        SettlesOn(before, mid, os.procs);
        mid := os.procs;
        os.Elapse(5);
        SettlesOn(before, mid, os.procs);
        mid := os.procs;
      }
    }

    /** launch_job_stop. */
    method Stop(j: Job, timeout: int) returns (rc: int, ghost exit: Option<Exit>, ghost calls: seq<Call>)
      requires Valid() && j in jobs
      modifies this`history, j, os
      ensures Valid() && os.clock >= old(os.clock) && os.interrupts >= old(os.interrupts)
      ensures Only(old(Cards(jobs)), Cards(jobs), j.number)
      ensures rc == OK && j.state == STOPPED
      ensures history == old(history) + [Event.Stop(j.number, exit)]
      ensures exit.Some? <==> old(j.state) == RUNNING
      ensures exit.Some? ==> old(j.pid) in old(Children(os.procs))
      ensures exit.Some? && old(os.procs)[old(j.pid)].exit.Some? && os.interrupts == old(os.interrupts) ==>
        exit == old(os.procs)[old(j.pid)].exit
      ensures os.calls == old(os.calls) + calls
      ensures if exit.Some? then Ends(calls, old(j.pid), timeout, exit.value) else calls == []
    {
      hide Positive, OnlyOurs, Children, Tracks, Cards, Only, Ends;
      NumbersDiffer(history, Cards(jobs), Children(os.procs), os.clock);
      ghost var cards, running := Cards(jobs), Children(os.procs);
      ghost var i :| 0 <= i < |jobs| && jobs[i] == j;
      RunningIsChild(history, cards, running, os.clock, i);
      exit, calls := None, [];
      if j.state == RUNNING && j.pid > 0 {
        var gone;
        gone, calls := Terminate(j.pid, timeout);
        exit := Some(gone);
        j.Collect(gone);
      }
      j.Rest(STOPPED, 0);
      rc := OK;
      Later(history, cards, running, old(os.clock), os.clock);
      Happened(cards, running, i, Event.Stop(j.number, exit));
    }

    /** One turn of the tick's first loop; `before` is the process table when it began. */
    method ReapIfGone(j: Job, ghost i: nat, ghost before: Processes)
      returns (changed: bool, ghost e: Option<Event>)
      requires Valid() && i < |jobs| && jobs[i] == j && Settles(before, os.procs)
      modifies this`history, j, os
      ensures NoSignals(old(os.calls), os.calls)
      ensures Valid() && os.clock >= old(os.clock) && os.interrupts >= old(os.interrupts)
      ensures changed <==> e.Some?
      ensures history == if changed then old(history) + [e.value] else old(history)
      ensures j.View() == Collected(old(j.View()), e)
      ensures forall k {:trigger Cards(jobs)[k]} :: 0 <= k < |jobs| ==>
        Cards(jobs)[k] == if k == i then Collected(old(Cards(jobs))[k], e) else old(Cards(jobs))[k]
      ensures changed ==>
        && old(j.state) == RUNNING && e.value.Reap? && e.value.job == j.number
        && old(os.clock) <= e.value.at <= os.clock
      ensures Ended(old(j.View()), before) && os.interrupts == old(os.interrupts) ==>
        changed && e.value.exit == before[old(j.pid)].exit.value
      ensures Settles(old(os.procs), os.procs) && Children(os.procs) <= old(Children(os.procs))
    {
      hide NoSignals, Valid, Cards, Settles, Evolves, DistinctNumbers, DistinctNames;
      changed, e := false, None;
      NoCalls(os.calls);
      NoTimeNeeded(os.procs);
      OneOfEach(i);
      if j.state == RUNNING {
        ghost var mid := os.procs;
        ghost var at, exit;
        changed, at, exit := Reap(j);
        SettledAt(before, mid, old(j.pid));
        if changed {
          e := Some(Event.Reap(j.number, at, exit));
        }
      }
    }

    lemma OneOfEach(i: nat)
      requires Valid() && i < |jobs|
      ensures forall k {:trigger jobs[k]} :: 0 <= k < |jobs| && k != i ==> jobs[k] != jobs[i]
    {
      hide Valid, Cards;
      CardsApart();
      forall k {:trigger jobs[k]} | 0 <= k < |jobs| && k != i
        ensures jobs[k] != jobs[i]
      {
        assert Cards(jobs)[k].number != Cards(jobs)[i].number;
      }
    }

    lemma NoTimeNeeded(ps: Processes)
      ensures Settles(ps, ps)
    {
    }

    /** The first loop of the tick: reap what has exited. */
    method ReapAll() returns (changes: nat, ghost reaps: History, ghost exits: seq<Option<Event>>)
      requires Valid()
      modifies this`history, jobs, os
      ensures NoSignals(old(os.calls), os.calls)
      ensures Valid() && os.clock >= old(os.clock) && os.interrupts >= old(os.interrupts)
      ensures history == old(history) + reaps && changes == |reaps| && Reaps(reaps)
      ensures |exits| == |jobs|
      ensures ReapedTo(old(Cards(jobs)), Cards(jobs), exits, reaps, old(os.clock), os.clock)
      ensures os.interrupts == old(os.interrupts) ==> Reported(exits, old(Cards(jobs)), old(os.procs))
    {
      hide NoSignals, Valid, Cards, Settles, ReapedTo, Reported, Changed, Reaps, DistinctNumbers, DistinctNames;
      changes, reaps, exits := 0, [], [];
      ghost var cards, before := Cards(jobs), os.procs;
      CardsApart();
      NoCalls(os.calls);
      NoTimeNeeded(before);
      NoneReaped(cards, before, os.clock);
      for i := 0 to |jobs|
        invariant Valid() && os.clock >= old(os.clock) && os.interrupts >= old(os.interrupts)
        invariant history == old(history) + reaps && changes == |reaps|
        invariant NoSignals(old(os.calls), os.calls)
        invariant Settles(before, os.procs)
        invariant |exits| == i && ReapedTo(cards, Cards(jobs), exits, reaps, old(os.clock), os.clock)
        invariant os.interrupts == old(os.interrupts) ==> Reported(exits, cards, before)
      {
        ghost var calls := os.calls;
        var changed; ghost var e;
        changed, e := ReapTurn(jobs[i], cards, before, exits, reaps, old(os.clock));
        NoSignalsOn(old(os.calls), calls, os.calls);
        if changed {
          Longer(old(history), reaps, e.value);
          changes, reaps := changes + 1, reaps + [e.value];
        }
        exits := exits + [e];
      }
      ReapedToAt(cards, Cards(jobs), exits, reaps, old(os.clock), os.clock);
    }

    /** One turn of it, with what it adds to the report of the turns before. */
    method ReapTurn(j: Job, ghost cards: seq<Card>, ghost before: Processes, ghost exits: seq<Option<Event>>,
                    ghost reaps: History, ghost from: int)
      returns (changed: bool, ghost e: Option<Event>)
      requires Valid() && |exits| < |jobs| && jobs[|exits|] == j && Settles(before, os.procs)
      requires ReapedTo(cards, Cards(jobs), exits, reaps, from, os.clock) && from <= os.clock
      modifies this`history, j, os
      ensures NoSignals(old(os.calls), os.calls)
      ensures Valid() && os.clock >= old(os.clock) && os.interrupts >= old(os.interrupts)
      ensures changed <==> e.Some?
      ensures history == if changed then old(history) + [e.value] else old(history)
      ensures Settles(before, os.procs)
      ensures ReapedTo(cards, Cards(jobs), exits + [e], if changed then reaps + [e.value] else reaps, from, os.clock)
      ensures os.interrupts == old(os.interrupts) && Reported(exits, cards, before) ==>
        Reported(exits + [e], cards, before)
    {
      hide NoSignals, Valid, Cards, Settles, ReapedTo, Reported, Ended;
      ghost var was, clock, mid, i := Cards(jobs), os.clock, os.procs, |exits|;
      ReapedToAt(cards, was, exits, reaps, from, clock);
      assert was[i] == j.View();
      changed, e := ReapIfGone(j, i, before);
      SettlesOn(before, mid, os.procs);
      NextReapedTo(cards, was, Cards(jobs), exits, reaps, from, clock, e, os.clock);
      if os.interrupts == old(os.interrupts) && Reported(exits, cards, before) {
        NextReported(exits, cards, before, e);
      }
    }

    method Time() returns (now: int)
      requires Valid()
      modifies os`procs, os`clock
      ensures Valid() && now == os.clock >= old(os.clock)
    {
      hide Tracks, Cards;
      now := os.Now();
      Later(history, Cards(jobs), Children(os.procs), old(os.clock), now);
    }

    method Sleep(milliseconds: nat)
      requires Valid()
      modifies os`procs, os`clock
      ensures Valid() && os.clock >= old(os.clock) + milliseconds
    {
      hide Tracks, Cards;
      os.Elapse(milliseconds);
      Later(history, Cards(jobs), Children(os.procs), old(os.clock), os.clock);
    }

    /** One turn of the tick's second loop. */
    method RestartIfDue(j: Job, now: int) returns (changed: bool, ghost e: Event)
      requires Valid() && j in jobs && now <= os.clock
      modifies this`history, j, os`procs, os`clock
      ensures Valid() && os.clock >= old(os.clock)
      ensures Only(old(Cards(jobs)), Cards(jobs), j.number)
      ensures changed <==> old(j.state == WAITING && now >= j.restartAt)
      ensures changed ==> history == old(history) + [e]
      ensures changed ==> j.state in {RUNNING, FAILED}
      ensures changed ==> e.job == j.number && (e.Start? || e.StartFailed?) && e.cause == Restart
      ensures !changed ==> history == old(history) && unchanged(j)
    {
      hide Valid, Cards, Only;
      OnlyThen(Cards(jobs), Cards(jobs), |jobs|, StartFailed(j.number, Restart));
      changed, e := j.state == WAITING && now >= j.restartAt, StartFailed(j.number, Restart);
      if changed {
        var rc; ghost var at;
        rc, at := Start(j, Restart);       // a failure leaves the job FAILED
        if rc == OK {
          e := Event.Start(j.number, Restart, at, j.pid);
        }
      }
    }

    /** The second loop of the tick: restart what has waited long enough, by the clock as it begins. */
    method RestartDue() returns (changes: nat, ghost restarts: History, ghost time: int)
      requires Valid()
      modifies this`history, jobs, os`procs, os`clock
      ensures Valid() && old(os.clock) <= time <= os.clock
      ensures history == old(history) + restarts && changes == |restarts| && Restarts(restarts)
      ensures SweptTo(RestartingDue(time), old(Cards(jobs)), Cards(jobs), |jobs|)
      ensures changes == |Changed(old(Cards(jobs)), Cards(jobs))|
    {
      hide Valid, Cards, RestartedTo, Restarts, SweptTo, Changed, DistinctNumbers, DistinctNames;
      changes, restarts := 0, [];
      ghost var cards := Cards(jobs);
      CardsApart();
      var now := Time();
      time := now;
      NoneRestarted(cards, now);
      for i := 0 to |jobs|
        invariant Valid() && now <= os.clock
        invariant history == old(history) + restarts && changes == |restarts|
        invariant RestartedTo(cards, Cards(jobs), now, restarts, i)
      {
        var changed; ghost var e;
        changed, e := RestartTurn(jobs[i], i, now, cards, restarts);
        if changed {
          Longer(old(history), restarts, e.value);
          changes, restarts := changes + 1, restarts + [e.value];
        }
      }
      AllRestarted(cards, Cards(jobs), now, restarts, |jobs|);
    }

    /** One turn of it. */
    method RestartTurn(j: Job, ghost i: nat, now: int, ghost cards: seq<Card>, ghost restarts: History)
      returns (changed: bool, ghost e: Option<Event>)
      requires Valid() && i < |jobs| && jobs[i] == j && now <= os.clock
      requires RestartedTo(cards, Cards(jobs), now, restarts, i)
      modifies this`history, j, os`procs, os`clock
      ensures Valid() && os.clock >= old(os.clock) && changed == e.Some?
      ensures history == if changed then old(history) + [e.value] else old(history)
      ensures RestartedTo(cards, Cards(jobs), now, if changed then restarts + [e.value] else restarts, i + 1)
    {
      hide Valid, Cards, SweptTo, Only, Changed, Restarts, Unmentioned;
      ghost var was := Cards(jobs);
      SweptNext(RestartingDue(now), cards, was, i);
      ghost var event;
      changed, event := RestartIfDue(j, now);
      e := if changed then Some(event) else None;
      assert Cards(jobs)[i] == j.View();
      NextRestartedTo(cards, was, Cards(jobs), now, restarts, i, e);
    }

    /**
     * launch_registry_tick. The result counts the changes of each loop; it is
     * the number of jobs in another state than before exactly when none was
     * reaped and restarted at once.
     */
    method Tick() returns (changes: nat, ghost reaps: History, ghost restarts: History,
                           ghost exits: seq<Option<Event>>, ghost mid: seq<Card>, ghost now: int)
      requires Valid()
      modifies this`history, jobs, os
      ensures NoSignals(old(os.calls), os.calls)
      ensures Valid() && old(os.clock) <= now <= os.clock && os.interrupts >= old(os.interrupts)
      ensures history == old(history) + reaps + restarts && changes == |reaps| + |restarts|
      ensures Reaps(reaps) && Restarts(restarts)
      ensures os.interrupts == old(os.interrupts) ==> Reported(exits, old(Cards(jobs)), old(os.procs))
      ensures Between(exits, old(os.clock), now) && Listed(exits, reaps)
      ensures Ticked(old(Cards(jobs)), exits, mid, now, Cards(jobs))
      ensures changes == |Changed(old(Cards(jobs)), mid)| + |Changed(mid, Cards(jobs))|
      ensures changes >= |Changed(old(Cards(jobs)), Cards(jobs))|
      ensures NoneRestartable(old(Cards(jobs))) ==> changes == |Changed(old(Cards(jobs)), Cards(jobs))|
      ensures os.interrupts == old(os.interrupts) && SomeSureRestart(old(Cards(jobs)), old(os.procs)) ==>
        changes > |Changed(old(Cards(jobs)), Cards(jobs))|
      ensures changes == |Changed(old(Cards(jobs)), Cards(jobs))| <==> !SomeAtOnce(old(Cards(jobs)), exits, now)
      ensures forall k {:trigger jobs[k]} :: 0 <= k < |jobs| && jobs[k].state == WAITING ==> jobs[k].restartAt > now
    {
      hide NoSignals, Valid, Cards, Settles, Evolves, Legal, Reported, Reaps, Restarts, OncePerJob, Between, Changed,
        SomeAtOnce, SweptTo, Reaping, Listed, NoneRestartable, SomeSureRestart;
      ghost var was, procs := Cards(jobs), os.procs;
      var reaped, restarted;
      reaped, reaps, exits := ReapAll();
      mid := Cards(jobs);
      ghost var clock := os.clock;
      restarted, restarts, now := RestartDue();
      changes := reaped + restarted;
      LaterBetween(exits, old(os.clock), clock, now);
      TickCountsTransitions(was, exits, mid, now, Cards(jobs));
      ForeseenCount(was, exits, mid, now, Cards(jobs), procs, old(os.clock));
      NoneDue(jobs, mid, now);
    }

    /** launch_registry_find. */
    method Find(name: string) returns (j: Job?, i: nat)
      ensures j != null ==> i < |jobs| && jobs[i] == j && j.spec.name == name
      ensures j == null ==> forall k {:trigger jobs[k]} :: 0 <= k < |jobs| ==> jobs[k].spec.name != name
    {
      for n := 0 to |jobs|
        invariant forall k {:trigger jobs[k]} :: 0 <= k < n ==> jobs[k].spec.name != name
      {
        if jobs[n].spec.name == name {
          return jobs[n], n;
        }
      }
      j, i := null, 0;
    }

    /** launch_registry_load_plist, after parsing. */
    method LoadPlist(parsed: Parsed) returns (rc: int, j: Job?)
      requires Valid() && (parsed.Bad? ==> parsed.rc != OK)
      modifies this`jobs, this`history
      ensures Valid()
      ensures rc == if parsed.Bad? then parsed.rc
                    else if HasName(old(jobs), parsed.spec.name) then EEXIST
                    else OK
      ensures rc != OK ==> j == null && jobs == old(jobs) && history == old(history) && Cards(jobs) == old(Cards(jobs))
      ensures rc == OK ==>
        && j != null && fresh(j) && jobs == old(jobs) + [j] && j.spec == parsed.spec
        && Cards(jobs) == old(Cards(jobs)) + [Card(j.number, parsed.spec, FRESH)]
        && history == old(history) + [Load(j.number, parsed.spec)]
    {
      hide Valid, Cards;
      j := null;
      if parsed.Bad? {
        return parsed.rc, null;
      }
      var twin, _ := Find(parsed.spec.name);
      if twin != null {
        return EEXIST, null;
      }
      j := Add(parsed.spec);
      rc := OK;
    }

    /** registry_append, of a fresh job. */
    method Add(spec: Spec) returns (j: Job)
      requires Valid() && forall k {:trigger jobs[k]} :: 0 <= k < |jobs| ==> jobs[k].spec.name != spec.name
      modifies this`jobs, this`history
      ensures Valid() && fresh(j) && jobs == old(jobs) + [j]
      ensures j.spec == spec && Cards(jobs) == old(Cards(jobs)) + [Card(j.number, spec, FRESH)]
      ensures history == old(history) + [Load(j.number, spec)]
    {
      hide Positive, OnlyOurs, Children, Tracks, Cards;
      ghost var cards := Cards(jobs);
      Loads(history, cards, Children(os.procs), os.clock, spec);
      ghost var number := Replay(history).loads;
      j := new Job(number, spec);
      CardsPlus(jobs, j);
      jobs, history := jobs + [j], history + [Load(number, spec)];
    }

    /** The end of launch_registry_unload. */
    method RemoveAt(i: nat)
      requires Valid() && i < |jobs| && jobs[i].state != RUNNING
      modifies this`jobs, this`history
      ensures Valid() && jobs == Omit(old(jobs), i)
      ensures Cards(jobs) == Omit(old(Cards(jobs)), i)
      ensures history == old(history) + [Event.Unload(old(jobs)[i].number)]
    {
      hide Positive, OnlyOurs, Children, Tracks, Cards;
      Unloads(history, Cards(jobs), Children(os.procs), os.clock, i);
      CardsWithout(jobs, i);
      history, jobs := history + [Event.Unload(jobs[i].number)], Omit(jobs, i);
    }

    lemma NameGone(i: nat)
      requires Valid() && i < |jobs|
      ensures var rest := Omit(jobs, i);
        forall k {:trigger rest[k]} :: 0 <= k < |rest| ==> rest[k].spec.name != jobs[i].spec.name
    {
      hide Positive, OnlyOurs, Children, Tracks, Cards;
      NamesDiffer(history, Cards(jobs), Children(os.procs), os.clock);
      var rest := Omit(jobs, i);
      forall k {:trigger rest[k]} | 0 <= k < |rest|
        ensures rest[k].spec.name != jobs[i].spec.name
      {
        assert rest[k] == jobs[if k < i then k else k + 1];
        assert Cards(jobs)[if k < i then k else k + 1].spec.name != Cards(jobs)[i].spec.name;
      }
    }

    /** launch_registry_unload: a running job is stopped first, with two seconds' grace. */
    method Unload(name: string)
      returns (rc: int, i: nat, ghost exit: Option<Exit>, ghost calls: seq<Call>)
      requires Valid()
      modifies this`jobs, this`history, jobs, os
      ensures Valid() && os.clock >= old(os.clock)
      ensures rc == if HasName(old(jobs), name) then OK else ENOENT
      ensures rc == ENOENT ==> jobs == old(jobs) && history == old(history) && Cards(jobs) == old(Cards(jobs))
      ensures forall k :: 0 <= k < |jobs| ==> jobs[k] in old(jobs)
      ensures rc == OK ==>
        && i < |old(jobs)| && old(jobs)[i].spec.name == name
        && jobs == Omit(old(jobs), i)
        && Cards(jobs) == Omit(old(Cards(jobs)), i)
        && (exit.Some? <==> old(Cards(jobs))[i].status.state == RUNNING)
        && history == old(history) + UnloadEvents(old(jobs)[i].number, exit)
      ensures forall k {:trigger jobs[k]} :: 0 <= k < |jobs| ==> jobs[k].spec.name != name
      ensures os.calls == old(os.calls) + calls
      ensures if rc == OK && exit.Some? then Ends(calls, old(Cards(jobs))[i].status.pid, 2000, exit.value)
              else calls == []
    {
      hide Valid, Cards, Only, DistinctNumbers, Omit, UnloadEvents, Ends;
      exit, calls := None, [];
      var j;
      j, i := Find(name);
      if j == null {
        return ENOENT, i, exit, calls;
      }
      ghost var cards, was := Cards(jobs), history;
      CardsApart();
      NameGone(i);
      OnlyThen(cards, cards, |cards|, Event.Unload(j.number));
      if j.state == RUNNING {
        rc, exit, calls := Stop(j, 2000);
      }
      OnlyOneGone(cards, Cards(jobs), i);
      OmitMembers(jobs, i);
      RemoveAt(i);
      TwoEvents(was, j.number, exit);
      rc := OK;
    }

    /** launch_registry_start_all. */
    method StartAll() returns (started: nat, ghost starts: History)
      requires Valid()
      modifies this`history, jobs, os`procs, os`clock
      ensures Valid() && os.clock >= old(os.clock)
      ensures history == old(history) + starts && AtLoadStarts(starts) && started == Successes(starts)
      ensures SweptTo(StartingAtLoad, old(Cards(jobs)), Cards(jobs), |jobs|)
      ensures AllAttempted(starts, old(Cards(jobs)), |jobs|)
    {
      hide Valid, Cards, Legal, Mentions, Unmentioned, OncePerJob, AtLoadStarts, SweptTo, Only,
        DistinctNumbers, AllAttempted;
      started, starts := 0, [];
      ghost var cards := Cards(jobs);
      CardsApart();
      NothingMentioned(cards, os.procs);
      NothingSwept(StartingAtLoad, cards);
      NoEvents();
      NoneAttempted(cards);
      for i := 0 to |jobs|
        invariant Valid() && os.clock >= old(os.clock)
        invariant history == old(history) + starts && AtLoadStarts(starts) && started == Successes(starts)
        invariant SweptTo(StartingAtLoad, cards, Cards(jobs), i)
        invariant Unmentioned(starts, cards, i) && AllAttempted(starts, cards, i)
      {
        var j := jobs[i];
        NextJob(starts, cards, i);
        ghost var was := Cards(jobs);
        SweptNext(StartingAtLoad, cards, was, i);
        var tried; ghost var e;
        tried, e := StartIfAtLoad(j);
        NextSwept(StartingAtLoad, cards, was, Cards(jobs), i);
        NextAttempt(starts, cards, i, tried, if tried then e else Event.Unload(j.number));
        if tried {
          NextOfKind(starts, cards, i, e);
          Longer(old(history), starts, e);
          starts := starts + [e];
          if j.state == RUNNING {
            started := started + 1;
          }
        }
      }
    }

    method StartIfAtLoad(j: Job) returns (tried: bool, ghost e: Event)
      requires Valid() && j in jobs
      modifies this`history, j, os`procs, os`clock
      ensures Valid() && os.clock >= old(os.clock)
      ensures Only(old(Cards(jobs)), Cards(jobs), j.number)
      ensures tried <==> j.spec.runAtLoad && old(j.state) == LOADED
      ensures tried ==> (e.Start? || e.StartFailed?) && e.job == j.number && e.cause == AtLoad
      ensures tried ==> history == old(history) + [e]
      ensures tried ==> j.state == if e.Start? then RUNNING else FAILED
      ensures !tried ==> history == old(history) && unchanged(j)
    {
      hide Valid, Cards, Only;
      OnlyThen(Cards(jobs), Cards(jobs), |jobs|, StartFailed(j.number, AtLoad));
      tried, e := j.spec.runAtLoad && j.state == LOADED, StartFailed(j.number, AtLoad);
      if tried {
        var rc; ghost var at;
        rc, at := Start(j, AtLoad);
        if rc == OK {
          e := Event.Start(j.number, AtLoad, at, j.pid);
        }
      }
    }

    /** launch_registry_stop_all: only running jobs; one that waits for its restart is left waiting. */
    method StopAll(timeout: int) returns (stopped: nat, ghost stops: History, ghost ends: seq<seq<Call>>)
      requires Valid()
      modifies this`history, jobs, os
      ensures Valid() && os.clock >= old(os.clock)
      ensures history == old(history) + stops && Stops(stops) && stopped == |stops|
      ensures SweptTo(Stopping, old(Cards(jobs)), Cards(jobs), |jobs|)
      ensures os.calls == old(os.calls) + Joined(ends) && EachEnds(ends, stops, old(Cards(jobs)), timeout)
    {
      hide Valid, Cards, Legal, Mentions, Unmentioned, OncePerJob, Stops, SweptTo, Only, DistinctNumbers, EachEnds,
        Ends, Joined;
      stopped, stops, ends := 0, [], [];
      NoEnds(Cards(jobs), timeout);
      ghost var cards := Cards(jobs);
      CardsApart();
      NothingMentioned(cards, os.procs);
      NothingSwept(Stopping, cards);
      NoEvents();
      for i := 0 to |jobs|
        invariant Valid() && os.clock >= old(os.clock)
        invariant history == old(history) + stops && Stops(stops) && stopped == |stops|
        invariant SweptTo(Stopping, cards, Cards(jobs), i)
        invariant Unmentioned(stops, cards, i)
        invariant os.calls == old(os.calls) + Joined(ends) && EachEnds(ends, stops, cards, timeout)
      {
        var j := jobs[i];
        NextJob(stops, cards, i);
        ghost var was := Cards(jobs);
        SweptNext(Stopping, cards, was, i);
        OnlyThen(was, was, |was|, Event.Unload(j.number));
        if j.state == RUNNING {
          var rc; ghost var exit, calls;
          rc, exit, calls := Stop(j, timeout);
          ghost var e := Event.Stop(j.number, exit);
          NextEnd(old(os.calls), ends, stops, cards, timeout, i, calls, exit.value);
          ends := ends + [calls];
          NextOfKind(stops, cards, i, e);
          Longer(old(history), stops, e);
          stopped, stops := stopped + 1, stops + [e];
        }
        NextSwept(Stopping, cards, was, Cards(jobs), i);
      }
    }

    /** launch_registry_load_dir; None is a directory that cannot be opened. No loaded job is touched. */
    method LoadDir(listing: Option<seq<File>>) returns (rc: int, failed: nat)
      requires Valid() && (listing.Some? ==> forall f :: f in listing.value && f.parsed.Bad? ==> f.parsed.rc != OK)
      modifies this`jobs, this`history
      ensures Valid()
      ensures forall k :: 0 <= k < |jobs| ==> jobs[k] in old(jobs) || fresh(jobs[k])
      ensures listing == None ==> rc == ENOENT && failed == 0 && jobs == old(jobs) && history == old(history)
      ensures listing.Some? ==>
        && old(jobs) <= jobs && history == old(history) + NewLoads(jobs, |old(jobs)|)
        && SpecsFrom(jobs, |old(jobs)|) == NewSpecs(listing.value, Names(old(jobs)))
        && rc == |jobs| - |old(jobs)| && rc + failed == Plists(listing.value)
    {
      hide NewSpecs, Adds, NewLoads, SpecsFrom, Plists, Valid, Cards, IsPlist, Names;
      failed := 0;
      if listing == None {
        return ENOENT, failed;
      }
      var files := listing.value;
      rc := 0;
      ghost var n := |jobs|;
      NoFiles(jobs, files);
      for i := 0 to |files|
        invariant Valid() && old(jobs) <= jobs && n == |old(jobs)|
        invariant forall k :: 0 <= k < |jobs| ==> jobs[k] in old(jobs) || fresh(jobs[k])
        invariant history == old(history) + NewLoads(jobs, n)
        invariant SpecsFrom(jobs, n) == NewSpecs(files[..i], Names(old(jobs)))
        invariant rc == |jobs| - n && rc + failed == Plists(files[..i])
      {
        NextFile(files, i, Names(old(jobs)));
        assert jobs[..n] == old(jobs);
        AddsIfAbsent(jobs, n, files[i]);
        if IsPlist(files[i].name) {
          var one, j := LoadPlist(files[i].parsed);
          if one == OK {
            OneMoreLoad(jobs[..|jobs| - 1], n, j);
            rc := rc + 1;
          } else {
            failed := failed + 1;
          }
        }
      }
      assert files[..|files|] == files;
    }

    /** launch_registry_free: whatever still runs is stopped, so no child outlives the registry. */
    method Free() returns (ghost stops: History, ghost ends: seq<seq<Call>>)
      requires Valid()
      modifies this`history, jobs, os
      ensures Valid() && history == old(history) + stops && Stops(stops)
      ensures Children(os.procs) == {}
      ensures os.calls == old(os.calls) + Joined(ends) && EachEnds(ends, stops, old(Cards(jobs)), 2000)
    {
      hide Positive, OnlyOurs, Children, Tracks, Cards, Stops, SweptTo, EachEnds, Joined;
      var stopped;
      ghost var was := Cards(jobs);
      stopped, stops, ends := StopAll(2000);
      NoneRunning(history, Cards(jobs), was, Children(os.procs), os.clock);
    }

    /** What every operation keeps, read on the jobs and the process table. */
    lemma Supervises()
      requires Valid()
      ensures forall i {:trigger jobs[i]} :: 0 <= i < |jobs| ==>
        && (jobs[i].state == RUNNING <==> jobs[i].pid > 0)
        && (jobs[i].state == RUNNING ==> jobs[i].pid in Children(os.procs))
      ensures forall p {:trigger p in Children(os.procs)} :: p in Children(os.procs) ==>
        exists i :: 0 <= i < |jobs| && jobs[i].state == RUNNING && jobs[i].pid == p
      ensures forall i, k :: 0 <= i < k < |jobs| ==>
        && jobs[i].spec.name != jobs[k].spec.name
        && (jobs[i].state == jobs[k].state == RUNNING ==> jobs[i].pid != jobs[k].pid)
    {
      hide Positive, OnlyOurs, Children, Tracks, Cards;
      ghost var cs := Cards(jobs);
      OneToOne(history, cs, Children(os.procs), os.clock);
      assert forall i {:trigger jobs[i]} :: 0 <= i < |jobs| ==> cs[i] == jobs[i].View();
      forall p {:trigger p in Children(os.procs)} | p in Children(os.procs)
        ensures exists i :: 0 <= i < |jobs| && jobs[i].state == RUNNING && jobs[i].pid == p
      {
        var i :| 0 <= i < |jobs| && cs[i].status.state == RUNNING && cs[i].status.pid == p;
        assert jobs[i].pid == p;
      }
    }
  }
}
