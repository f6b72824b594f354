/**
 * The operating system under the supervisor: a process table and a monotone
 * clock. Everything not done by a call happens in Elapse: children exit,
 * other processes come and go, time passes. Nobody else reaps our children.
 */
module LaunchSystem {
  import opened Common
  import opened LaunchHistory

  /** Who forked a process: the registry, other code in the same process, or anybody else. */
  datatype Kin = Ours | Sibling | Stranger

  datatype Process = Process(kin: Kin, exit: Option<Exit>)

  type Processes = map<int, Process>

  datatype Wait = Gone(exit: Exit) | Alive | NoChild | Interrupted

  predicate Evolves(a: Processes, b: Processes) {
    && Positive(b)
    && (forall p | p in a && a[p].kin == Ours :: p in b && b[p].kin == Ours && (a[p].exit.Some? ==> b[p] == a[p]))
    && (forall p | p in b && b[p].kin == Ours :: p in a && a[p].kin == Ours)
  }

  /** Our unreaped children. */
  function Children(ps: Processes): set<int> {
    set p | p in ps && ps[p].kin == Ours
  }

  /** A child of ours that has exited is still there, with its status, or was reaped. */
  predicate Settles(a: Processes, b: Processes) {
    forall p | p in a && a[p].kin == Ours && a[p].exit.Some? :: p in b && b[p].kin == Ours ==> b[p] == a[p]
  }

  lemma SettlesOn(a: Processes, b: Processes, c: Processes)
    requires Settles(a, b) && Settles(b, c) && Children(c) <= Children(b)
    ensures Settles(a, c)
  {
    forall p | p in a && a[p].kin == Ours && a[p].exit.Some? && p in c && c[p].kin == Ours
      ensures c[p] == a[p]
    {
      assert p in Children(c);
    }
  }

  lemma SettledAt(a: Processes, b: Processes, p: int)
    requires Settles(a, b) && p in Children(b)
    ensures p in b && (p in a && a[p].kin == Ours && a[p].exit.Some? ==> b[p] == a[p])
    ensures p in Children(a) ==> p in a && (a[p].exit.Some? ==> b[p] == a[p])
  {
  }

  predicate Positive(ps: Processes) {
    forall p | p in ps :: p > 0
  }

  /** Nobody else's process was signalled or reaped. */
  predicate OnlyOurs(ks: seq<Kin>) {
    forall k | k in ks :: k == Ours
  }

  const SIGKILL := 9
  const SIGTERM := 15

  /** What was done to processes, and when: a signal, a wait that found nothing, a wait that collected one. */
  datatype Call =
    | Signal(pid: int, signal: int, at: int)
    | Polled(pid: int, at: int)
    | WaitedFor(pid: int, exit: Exit, at: int)

  function NonNegative(n: int): nat {
    if n > 0 then n else 0
  }

  predicate Polls(calls: seq<Call>, pid: int, n: nat)
    requires n <= |calls|
  {
    forall k :: 1 <= k < n ==> calls[k].Polled? && calls[k].pid == pid
  }

  /** The child went by itself after SIGTERM: the exit reported is the one it was collected with. */
  predicate WentByItself(calls: seq<Call>, pid: int, exit: Exit) {
    var n := |calls| - 1;
    n >= 1 && Polls(calls, pid, n) && calls[n].WaitedFor? && calls[n].pid == pid && calls[n].exit == exit
  }

  /** It was killed, no sooner than the grace period after SIGTERM, and after a wait had not found it gone. */
  predicate WasKilled(calls: seq<Call>, pid: int, timeout: int, exit: Exit) {
    var n := |calls| - 1;
    && n >= 3 && Polls(calls, pid, n - 1) && calls[n].WaitedFor? && calls[n].pid == pid
    && calls[n - 1] == Signal(pid, SIGKILL, calls[n - 1].at)
    && calls[n - 1].at >= calls[0].at + NonNegative(timeout)
    && exit == Killed(SIGKILL)
  }

  /** A child was ended: SIGTERM first, then SIGKILL only if it outlived the grace period. */
  predicate Ends(calls: seq<Call>, pid: int, timeout: int, exit: Exit) {
    && calls != [] && calls[0] == Signal(pid, SIGTERM, calls[0].at)
    && (WentByItself(calls, pid, exit) || WasKilled(calls, pid, timeout, exit))
  }

  /** Nothing was signalled in between. */
  predicate NoSignals(was: seq<Call>, now: seq<Call>) {
    was <= now && forall k :: |was| <= k < |now| ==> !now[k].Signal?
  }

  lemma NoSignalsOn(a: seq<Call>, b: seq<Call>, c: seq<Call>)
    requires NoSignals(a, b) && NoSignals(b, c)
    ensures NoSignals(a, c)
  {
  }

  lemma NoCalls(a: seq<Call>)
    ensures NoSignals(a, a)
  {
  }

  /** SIGTERM was sent, and the child has not been found gone since. */
  predicate Ending(calls: seq<Call>, pid: int) {
    calls != [] && calls[0] == Signal(pid, SIGTERM, calls[0].at) && Polls(calls, pid, |calls|)
  }

  lemma JustSignalled(pid: int, at: int)
    ensures Ending([Signal(pid, SIGTERM, at)], pid)
  {
  }

  lemma Behind(was: seq<Call>, calls: seq<Call>, a: Call, b: Call)
    ensures was + calls + [a] + [b] == was + (calls + [a] + [b])
  {
  }

  lemma StillThere(calls: seq<Call>, pid: int, at: int)
    requires Ending(calls, pid)
    ensures Ending(calls + [Polled(pid, at)], pid) && (calls + [Polled(pid, at)])[0] == calls[0]
    ensures |calls + [Polled(pid, at)]| >= 2
  {
  }

  lemma Went(calls: seq<Call>, pid: int, timeout: int, exit: Exit, at: int)
    requires Ending(calls, pid)
    ensures Ends(calls + [WaitedFor(pid, exit, at)], pid, timeout, exit)
  {
  }

  lemma Escalated(calls: seq<Call>, pid: int, timeout: int, at: int, last: Call)
    requires Ending(calls, pid) && |calls| >= 2 && at >= calls[0].at + NonNegative(timeout)
    requires last.WaitedFor? && last.pid == pid
    ensures Ends(calls + [Signal(pid, SIGKILL, at)] + [last], pid, timeout, Killed(SIGKILL))
  {
    var all := calls + [Signal(pid, SIGKILL, at)] + [last];
    assert WasKilled(all, pid, timeout, Killed(SIGKILL));
  }

  class System {
    var procs: Processes
    var clock: int
    ghost var touched: seq<Kin>       // whose processes were signalled or reaped
    ghost var interrupts: nat         // how many waits returned EINTR
    ghost var calls: seq<Call>

    ghost predicate Valid()
      reads this
    {
      Positive(procs) && clock >= 0
    }

    constructor (procs: Processes, clock: nat)
      requires Positive(procs)
      ensures Valid() && this.procs == procs && this.clock == clock && touched == []
    {
      this.procs, this.clock, touched, interrupts, calls := procs, clock, [], 0, [];
    }

    /** Time passes, at least this many milliseconds. */
    method Elapse(atLeast: nat)
      requires Valid()
      modifies this`procs, this`clock
      ensures Valid() && Evolves(old(procs), procs) && clock >= old(clock) + atLeast
      ensures Children(procs) == Children(old(procs)) && Settles(old(procs), procs)
    {
      var ps: Processes := *;
      var now: int := *;
      if Evolves(procs, ps) {
        procs := ps;
      }
      clock := if now >= clock + atLeast then now else clock + atLeast;
      assert forall p :: p in Children(procs) <==> p in Children(old(procs));
    }

    /** clock_gettime(CLOCK_MONOTONIC) in milliseconds. */
    method Now() returns (now: int)
      requires Valid()
      modifies this`procs, this`clock
      ensures Valid() && Children(procs) == Children(old(procs)) && Settles(old(procs), procs)
      ensures now == clock >= old(clock)
    {
      Elapse(0);
      now := clock;
    }

    method Fork() returns (pid: int)
      requires Valid()
      modifies this`procs, this`clock
      ensures Valid() && clock >= old(clock)
      ensures pid < 0 ==> Children(procs) == Children(old(procs)) && Settles(old(procs), procs)
      ensures pid >= 0 ==> pid > 0 && pid !in Children(old(procs)) && Children(procs) == Children(old(procs)) + {pid}
      ensures pid >= 0 ==> procs[pid] == Process(Ours, None) && Settles(old(procs), procs)
    {
      Elapse(0);
      pid := *;
      if pid <= 0 || pid in procs {
        return -1;
      }
      procs := procs[pid := Process(Ours, None)];
    }

    /** kill(pid, signal): what it does to the process shows later. */
    method Kill(pid: int, signal: int)
      requires Valid()
      modifies this`touched, this`calls
      ensures Valid() && calls == old(calls) + [Signal(pid, signal, clock)]
      ensures pid in Children(procs) && OnlyOurs(old(touched)) ==> OnlyOurs(touched)
      ensures touched == if pid in procs then old(touched) + [procs[pid].kin] else old(touched)
    {
      calls := calls + [Signal(pid, signal, clock)];
      if pid in procs {
        touched := touched + [procs[pid].kin];
      }
    }

    /** waitpid(pid, &status, WNOHANG). */
    method WaitNoHang(pid: int) returns (r: Wait)
      requires Valid()
      modifies this
      ensures Valid() && clock >= old(clock) && Settles(old(procs), procs)
      ensures interrupts == old(interrupts) + if r.Interrupted? then 1 else 0
      ensures r.Gone? ==> pid !in procs && calls == old(calls) + [WaitedFor(pid, r.exit, clock)]
      ensures NoSignals(old(calls), calls)
      ensures r.Alive? || r.Interrupted? ==> calls == old(calls) + [Polled(pid, clock)]
      ensures pid in Children(old(procs)) ==>
        && !r.NoChild?
        && Children(procs) == (if r.Gone? then Children(old(procs)) - {pid} else Children(old(procs)))
        && (OnlyOurs(old(touched)) ==> OnlyOurs(touched))
        && (old(procs)[pid].exit.Some? ==> r.Interrupted? || r == Gone(old(procs)[pid].exit.value))
    {
      Elapse(0);
      var interrupted: bool := *;
      if interrupted {
        interrupts, calls := interrupts + 1, calls + [Polled(pid, clock)];
        return Interrupted;
      }
      if pid !in procs || procs[pid].kin == Stranger {
        return NoChild;
      }
      if procs[pid].exit == None {
        calls := calls + [Polled(pid, clock)];
        return Alive;
      }
      r := Gone(procs[pid].exit.value);
      calls := calls + [WaitedFor(pid, r.exit, clock)];
      touched := touched + [procs[pid].kin];
      procs := procs - {pid};
    }

    /** waitpid(pid, &status, 0) on a child that was sent SIGKILL: it ends, and is reaped. */
    method Wait(pid: int)
      requires Valid()
      modifies this
      ensures Valid() && clock >= old(clock) && interrupts == old(interrupts) && Settles(old(procs), procs)
      ensures pid in Children(old(procs)) ==>
        && pid !in procs && Children(procs) == Children(old(procs)) - {pid}
        && |calls| == |old(calls)| + 1 && old(calls) <= calls
        && calls[|old(calls)|].WaitedFor? && calls[|old(calls)|].pid == pid
        && (OnlyOurs(old(touched)) ==> OnlyOurs(touched))
    {
      Elapse(0);
      if pid in procs && procs[pid].kin != Stranger {
        var exit: Exit := *;
        calls := calls + [WaitedFor(pid, exit, clock)];
        touched := touched + [procs[pid].kin];
        procs := procs - {pid};
      }
    }
  }
}
