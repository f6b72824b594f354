/** What holds of every job in every history a supervisor can produce. */
module LaunchPromises {
  import opened Common
  import opened LaunchHistory

  lemma {:induction false} LegalPrefix(h: History, k: nat)
    requires Legal(h) && k <= |h|
    ensures Legal(h[..k])
  {
    if k == |h| {
      assert h[..k] == h;
    } else {
      assert h[..|h| - 1][..k] == h[..k];
      LegalPrefix(h[..|h| - 1], k);
    }
  }

  lemma LegalStep(h: History, k: nat)
    requires Legal(h) && k < |h|
    ensures Legal(h[..k]) && Permitted(Replay(h[..k]), h[k])
    ensures Legal(h[..k + 1]) && Replay(h[..k + 1]) == Next(Replay(h[..k]), h[k])
  {
    LegalPrefix(h, k + 1);
    assert h[..k + 1][..k] == h[..k];
  }

  /** What the guard of a start and the ledger's soundness say together. */
  lemma StartFacts(l: Ledger, e: Event)
    requires Sound(l) && Permitted(l, e) && e.Start?
    ensures e.job in l.table && e.at >= l.latest
    ensures var r := l.table[e.job];
      && (e.cause == AtLoad ==> r.lastStart == None)
      && (r.lastStart.Some? ==> r.lastStart.value <= e.at)
      && (e.cause == Restart ==>
            && r.status.state == WAITING && r.status.restartAt <= e.at
            && r.lastStart.Some? && r.lastStart.value + r.spec.throttle <= e.at)
    ensures e.job in Next(l, e).table && Next(l, e).table[e.job].lastStart == Some(e.at)
  {
    RecordStaysOk(l.table[e.job], l.latest, l.latest);
  }

  lemma LastStartGrows(l: Ledger, e: Event, job: nat)
    requires Sound(l) && Permitted(l, e) && job < l.loads && job in Next(l, e).table
    ensures job in l.table
    ensures var was, now := l.table[job].lastStart, Next(l, e).table[job].lastStart;
      was.Some? ==> now.Some? && now.value >= was.value
  {
    if e.Start? {
      StartFacts(l, e);
    }
  }

  /** Job numbers are never used twice. */
  lemma {:induction false} Numbered(h: History, k: nat)
    requires Legal(h) && k < |h|
    ensures h[k].job < Replay(h).loads
  {
    var n := |h| - 1;
    LegalIsSound(h[..n]);
    if k < n {
      Numbered(h[..n], k);
    }
  }

  lemma {:induction false} SpecStays(h: History, k: nat)
    requires Legal(h) && k < |h| && h[k].Load? && h[k].job in Replay(h).table
    ensures Replay(h).table[h[k].job].spec == h[k].spec
  {
    var n := |h| - 1;
    if k < n {
      Numbered(h[..n], k);
      SpecStays(h[..n], k);
    }
  }

  lemma {:induction false} LastStartCovers(h: History, k: nat)
    requires Legal(h) && k < |h| && h[k].Start? && h[k].job in Replay(h).table
    ensures var last := Replay(h).table[h[k].job].lastStart; last.Some? && last.value >= h[k].at
  {
    hide Permitted, Next, Sound;
    var n := |h| - 1;
    LegalStep(h, n);
    assert h[..n + 1] == h;
    LegalIsSound(h[..n]);
    if k < n {
      Numbered(h[..n], k);
      LastStartGrows(Replay(h[..n]), h[n], h[k].job);
      LastStartCovers(h[..n], k);
    } else {
      StartFacts(Replay(h[..n]), h[n]);
    }
  }

  // -------------------------------------------------------------- throttling

  /**
   * Every automatic restart comes at least the job's throttle after every
   * earlier start of it, whatever was done to it in between.
   */
  lemma RestartsAreThrottled(h: History, i: nat, k: nat, l: nat)
    requires Legal(h) && l < i < k < |h|
    requires h[l].Load? && h[i].Start? && h[k].Start? && h[l].job == h[i].job == h[k].job
    requires h[k].cause == Restart
    ensures h[k].at >= h[i].at + h[l].spec.throttle
  {
    LegalStep(h, k);
    LegalIsSound(h[..k]);
    LastStartCovers(h[..k], i);
    SpecStays(h[..k], l);
  }

  /** The starts of a job at times in [lo, hi]. */
  function Starts(h: History, job: nat, lo: int, hi: int): nat {
    if h == [] then 0
    else
      var e := h[|h| - 1];
      Starts(h[..|h| - 1], job, lo, hi) + if e.Start? && e.job == job && lo <= e.at <= hi then 1 else 0
  }

  predicate NoOperatorStart(h: History, job: nat, lo: int, hi: int) {
    forall k :: 0 <= k < |h| && h[k].Start? && h[k].job == job && lo <= h[k].at <= hi ==> h[k].cause != Operator
  }

  lemma {:induction false} StartsAreSpread(h: History, l: nat, lo: int, hi: int) returns (last: int)
    requires Legal(h) && l < |h| && h[l].Load? && NoOperatorStart(h, h[l].job, lo, hi)
    ensures var n := Starts(h, h[l].job, lo, hi);
      n > 0 ==>
        && lo + (n - 1) * h[l].spec.throttle <= last <= hi
        && (h[l].job in Replay(h).table ==>
              Replay(h).table[h[l].job].lastStart.Some? && last <= Replay(h).table[h[l].job].lastStart.value)
  {
    hide Permitted, Sound, Next;
    var n, job := |h| - 1, h[l].job;
    var before := h[..n];
    LegalStep(h, n);
    assert h[..n + 1] == h;
    LegalIsSound(before);
    if l == n {
      LoadIsNext(Replay(before), h[n]);
      NoneBeforeLoad(before, job, lo, hi);
      last := lo;
    } else {
      last := StartsAreSpread(before, l, lo, hi);
      Numbered(before, l);
      if job in Replay(h).table {
        LastStartGrows(Replay(before), h[n], job);
      }
      if h[n].Start? && h[n].job == job && lo <= h[n].at <= hi {
        StartFacts(Replay(before), h[n]);
        SpecStays(before, l);
        if Starts(before, job, lo, hi) > 0 {
          OneMore(Starts(before, job, lo, hi), h[l].spec.throttle);
        }
        last := h[n].at;
      }
    }
  }

  lemma LoadIsNext(l: Ledger, e: Event)
    requires Permitted(l, e) && e.Load?
    ensures e.job == l.loads
  {
  }

  lemma OneMore(n: nat, t: nat)
    requires n > 0
    ensures (n - 1) * t + t == n * t
  {
  }

  lemma {:induction false} NoneBeforeLoad(h: History, job: nat, lo: int, hi: int)
    requires Legal(h) && Replay(h).loads <= job
    ensures Starts(h, job, lo, hi) == 0
  {
    if h != [] {
      Numbered(h, |h| - 1);
      NoneBeforeLoad(h[..|h| - 1], job, lo, hi);
    }
  }

  lemma Times(a: nat, b: nat, t: nat)
    requires a <= b
    ensures a * t <= b * t
  {
  }

  lemma Quotient(n: nat, t: nat, length: nat)
    requires t > 0 && n * t <= length
    ensures n <= length / t
  {
    if n >= length / t + 1 {
      Times(length / t + 1, n, t);
    }
  }

  /** A window without an operator's start holds at most 1 + length / throttle starts of a job. */
  lemma WindowBound(h: History, l: nat, lo: int, length: nat)
    requires Legal(h) && l < |h| && h[l].Load? && h[l].spec.throttle > 0
    requires NoOperatorStart(h, h[l].job, lo, lo + length)
    ensures Starts(h, h[l].job, lo, lo + length) <= 1 + length / h[l].spec.throttle
  {
    var last := StartsAreSpread(h, l, lo, lo + length);
    var n := Starts(h, h[l].job, lo, lo + length);
    if n > 0 {
      Quotient(n - 1, h[l].spec.throttle, length);
    }
  }

  // ------------------------------------------------------ stops and restarts

  /** launch_job_start or launch_registry_unload is called on the job. */
  predicate Revived(e: Event, job: nat) {
    e.job == job && (e.Unload? || ((e.Start? || e.StartFailed?) && e.cause == Operator))
  }

  lemma StoppedStays(l: Ledger, e: Event, job: nat)
    requires Sound(l) && Permitted(l, e) && !Revived(e, job)
    requires job in l.table && l.table[job].status.state == STOPPED
    ensures job in Next(l, e).table && Next(l, e).table[job].status == l.table[job].status
  {
  }

  lemma StopStops(l: Ledger, e: Event)
    requires Permitted(l, e) && e.Stop?
    ensures e.job in Next(l, e).table && Next(l, e).table[e.job].status.state == STOPPED
  {
  }

  /**
   * A stop outranks KeepAlive and RunAtLoad: nothing but an operator's start
   * (or an unload) changes anything about a stopped job.
   */
  lemma {:induction false} StopOutranks(h: History, i: nat, k: nat)
    requires Legal(h) && i < k <= |h| && h[i].Stop?
    requires forall m :: i < m < k ==> !Revived(h[m], h[i].job)
    ensures h[i].job in Replay(h[..i + 1]).table && h[i].job in Replay(h[..k]).table
    ensures var s := Replay(h[..k]).table[h[i].job].status;
      s.state == STOPPED && s == Replay(h[..i + 1]).table[h[i].job].status
  {
    hide Permitted, Next, Sound, Replay, Legal;
    LegalStep(h, i);
    StopStops(Replay(h[..i]), h[i]);
    if i + 1 < k {
      LegalStep(h, k - 1);
      StopOutranks(h, i, k - 1);
      LegalIsSound(h[..k - 1]);
      StoppedStays(Replay(h[..k - 1]), h[k - 1], h[i].job);
    }
  }

  /** The last event of a job. */
  function LastOf(h: History, job: nat): (k: Option<nat>)
    ensures k.Some? ==> k.value < |h| && h[k.value].job == job
    ensures var from := if k.Some? then k.value + 1 else 0; forall m :: from <= m < |h| ==> h[m].job != job
  {
    if h == [] then None
    else if h[|h| - 1].job == job then Some(|h| - 1)
    else
      var k := LastOf(h[..|h| - 1], job);
      assert forall m :: 0 <= m < |h| - 1 ==> h[..|h| - 1][m] == h[m];
      k
  }

  lemma {:induction false} WaitingAfterExit(h: History, job: nat)
    requires Legal(h) && job in Replay(h).table && Replay(h).table[job].status.state == WAITING
    ensures var r := LastOf(h, job);
      && r.Some? && h[r.value].Reap?
      && Accepts(Replay(h).table[job].spec.keepAlive, h[r.value].exit)
      && Replay(h).table[job].status.restartAt == h[r.value].at + Replay(h).table[job].spec.throttle
  {
    var n := |h| - 1;
    if h[n].job != job {
      WaitingAfterExit(h[..n], job);
    }
  }

  /**
   * The last thing that happened to a job before an automatic restart was that
   * its exit was reaped, with a status its KeepAlive accepts; so two restarts
   * answer two different exits.
   */
  lemma RestartHasItsExit(h: History, l: nat, k: nat)
    requires Legal(h) && l < k < |h| && h[l].Load? && h[k].Start? && h[k].cause == Restart && h[l].job == h[k].job
    ensures var r := LastOf(h[..k], h[k].job);
      && r.Some? && h[r.value].Reap?
      && Accepts(h[l].spec.keepAlive, h[r.value].exit)
      && h[k].at >= h[r.value].at + h[l].spec.throttle
    ensures forall i :: 0 <= i < k && h[i].Start? && h[i].job == h[k].job ==>
      var r, q := LastOf(h[..k], h[k].job), LastOf(h[..i], h[i].job);
      q.Some? && r.Some? ==> q.value < i < r.value
  {
    hide Sound, Replay, Legal, Permitted;
    LegalStep(h, k);
    LegalIsSound(h[..k]);
    StartFacts(Replay(h[..k]), h[k]);
    WaitingAfterExit(h[..k], h[k].job);
    SpecStays(h[..k], l);
    var r := LastOf(h[..k], h[k].job);
    forall i | 0 <= i < k && h[i].Start? && h[i].job == h[k].job
      ensures i < r.value
    {
      assert h[..k][i] == h[i];
    }
  }

  /** start_count counts exactly the successful starts. */
  lemma {:induction false} StartCountCounts(h: History, job: nat, lo: int, hi: int)
    requires Legal(h) && job in Replay(h).table
    requires forall k :: 0 <= k < |h| && h[k].Start? ==> lo <= h[k].at <= hi
    ensures Replay(h).table[job].status.startCount == Starts(h, job, lo, hi)
  {
    var n := |h| - 1;
    LegalIsSound(h[..n]);
    if h[n].Load? && h[n].job == job {
      NoneBeforeLoad(h[..n], job, lo, hi);
    } else {
      StartCountCounts(h[..n], job, lo, hi);
    }
  }

  /** The exit an event reaped. */
  function ExitOf(e: Event): Option<Exit> {
    match e
    case Reap(_, _, exit) => Some(exit)
    case Stop(_, exit) => exit
    case _ => None
  }

  /** Event r reaped the job's latest exit; or the job has not exited yet. */
  predicate LatestExit(h: History, job: nat, r: Option<nat>) {
    && (r.Some? ==> r.value < |h| && h[r.value].job == job && ExitOf(h[r.value]).Some?)
    && forall k :: (if r.Some? then r.value + 1 else 0) <= k < |h| && h[k].job == job ==> ExitOf(h[k]) == None
  }

  /** What is reported of an exit: its code, or the negative number of the signal. */
  predicate Reports(s: Status, exit: Exit) {
    if exit.ExitCode? then s.lastExit == exit.code && !s.signaled else s.lastExit == -exit.signal && s.signaled
  }

  lemma ExitReported(l: Ledger, e: Event, job: nat)
    requires Sound(l) && Permitted(l, e) && job in Next(l, e).table && job < l.loads
    ensures job in l.table
    ensures var was, now := l.table[job].status, Next(l, e).table[job].status;
      if e.job == job && ExitOf(e).Some? then Reports(now, ExitOf(e).value)
      else now.lastExit == was.lastExit && now.signaled == was.signaled
  {
  }

  /** Whatever happens to a job later, its latest exit is what is reported of it. */
  lemma {:induction false} LatestExitIsReported(h: History, job: nat, r: Option<nat>)
    requires Legal(h) && job in Replay(h).table && LatestExit(h, job, r)
    ensures var s := Replay(h).table[job].status;
      if r.Some? then Reports(s, ExitOf(h[r.value]).value) else s.lastExit == 0 && !s.signaled
  {
    hide Permitted, Next, Sound, Replay, Legal, ExitOf;
    var n := |h| - 1;
    NotEmpty(h, job);
    LegalStep(h, n);
    assert h[..n + 1] == h;
    LegalIsSound(h[..n]);
    var l := Replay(h[..n]);
    if job < l.loads {
      ExitReported(l, h[n], job);
      if r != Some(n) {
        LatestExitIsReported(h[..n], job, r);
      }
    } else {
      LoadedNow(l, h[n], job);
      if r.Some? {
        LegalPrefix(h, n);
        Numbered(h[..n], r.value);
      }
    }
  }

  lemma NotEmpty(h: History, job: nat)
    requires job in Replay(h).table
    ensures h != []
  {
  }

  lemma LoadedNow(l: Ledger, e: Event, job: nat)
    requires Sound(l) && Permitted(l, e) && job in Next(l, e).table && job >= l.loads
    ensures e.Load? && e.job == job && ExitOf(e) == None && Next(l, e).table[job].status == FRESH
  {
  }
}
