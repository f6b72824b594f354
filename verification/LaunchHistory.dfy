/**
 * What a launchd supervisor may do to its jobs, as a history of events: each
 * event has a guard, the history determines every job's fields, and the
 * supervision promises are facts about guarded histories.
 */
module LaunchHistory {
  import opened Common

  datatype KeepAlive = Never | Always | OnFailure | OnSuccess

  datatype JobState = LOADED | RUNNING | EXITED | WAITING | STOPPED | FAILED

  datatype Exit = ExitCode(code: int) | Killed(signal: int)

  /** What a job's property list says. */
  datatype Spec = Spec(name: string, runAtLoad: bool, keepAlive: KeepAlive, throttle: nat, sockets: nat)

  /** The runtime part of struct launch_job. */
  datatype Status = Status(state: JobState, pid: int, lastExit: int, signaled: bool, startCount: nat, restartAt: int)

  const FRESH := Status(LOADED, -1, 0, false, 0, 0)

  /** Who called launch_job_start: an operator, launch_registry_start_all or launch_registry_tick. */
  datatype Cause = Operator | AtLoad | Restart

  /** Jobs are numbered in the order they were loaded. */
  datatype Event =
    | Load(job: nat, spec: Spec)
    | Start(job: nat, cause: Cause, at: int, pid: int)
    | StartFailed(job: nat, cause: Cause)
    | Reap(job: nat, at: int, exit: Exit)               // by the tick
    | Stop(job: nat, reaped: Option<Exit>)                // None: it was not running
    | Unload(job: nat)

  type History = seq<Event>

  datatype Record = Record(spec: Spec, status: Status, lastStart: Option<int>)

  datatype Ledger = Ledger(table: map<nat, Record>, loads: nat, latest: int)

  const EMPTY := Ledger(map[], 0, 0)

  // -------------------------------------------------------------- semantics

  /** should_restart. */
  predicate Accepts(k: KeepAlive, exit: Exit) {
    match k
    case Always => true
    case OnFailure => exit != ExitCode(0)
    case OnSuccess => exit == ExitCode(0)
    case Never => false
  }

  function Exited(s: Status, exit: Exit): Status {
    match exit
    case ExitCode(code) => s.(pid := -1, signaled := false, lastExit := code)
    case Killed(signal) => s.(pid := -1, signaled := true, lastExit := -signal)
  }

  function NextStatus(r: Record, e: Event): Status {
    var s := r.status;
    match e
    case Start(_, _, _, pid) => s.(state := RUNNING, pid := pid, startCount := s.startCount + 1, restartAt := 0)
    case StartFailed(_, _) => s.(state := FAILED)
    case Reap(_, at, exit) =>
      if Accepts(r.spec.keepAlive, exit) then Exited(s, exit).(state := WAITING, restartAt := at + r.spec.throttle)
      else Exited(s, exit).(state := EXITED, restartAt := 0)
    case Stop(_, Some(exit)) => Exited(s, exit).(state := STOPPED, restartAt := 0)
    case Stop(_, None) => s.(state := STOPPED, restartAt := 0)
    case _ => s
  }

  function NextRecord(r: Record, e: Event): Record {
    r.(status := NextStatus(r, e), lastStart := if e.Start? then Some(e.at) else r.lastStart)
  }

  function Next(l: Ledger, e: Event): Ledger {
    match e
    case Load(j, spec) => l.(table := l.table[j := Record(spec, FRESH, None)], loads := l.loads + 1)
    case Unload(j) => l.(table := l.table - {j})
    case _ =>
      if e.job !in l.table then l
      else l.(table := l.table[e.job := NextRecord(l.table[e.job], e)],
              latest := if e.Start? || e.Reap? then e.at else l.latest)
  }

  function Replay(h: History): Ledger {
    if h == [] then EMPTY else Next(Replay(h[..|h| - 1]), h[|h| - 1])
  }

  predicate MayTry(spec: Spec, s: Status, cause: Cause) {
    match cause
    case Operator => s.state != RUNNING
    case AtLoad => s.state == LOADED && spec.runAtLoad
    case Restart => s.state == WAITING
  }

  /** The guard of each event. */
  predicate Permitted(l: Ledger, e: Event) {
    match e
    case Load(j, spec) => j == l.loads && forall k :: k in l.table ==> l.table[k].spec.name != spec.name
    case Start(j, cause, at, pid) =>
      && j in l.table && MayTry(l.table[j].spec, l.table[j].status, cause) && at >= l.latest
      && (cause == Restart ==> l.table[j].status.restartAt <= at)
      && pid > 0 && forall k :: k in l.table ==> l.table[k].status.pid != pid
    case StartFailed(j, cause) => j in l.table && MayTry(l.table[j].spec, l.table[j].status, cause)
    case Reap(j, at, _) => j in l.table && l.table[j].status.state == RUNNING && at >= l.latest
    case Stop(j, exit) => j in l.table && (exit.Some? <==> l.table[j].status.state == RUNNING)
    case Unload(j) => j in l.table && l.table[j].status.state != RUNNING
  }

  predicate Legal(h: History) {
    h == [] || (Legal(h[..|h| - 1]) && Permitted(Replay(h[..|h| - 1]), h[|h| - 1]))
  }

  // -------------------------------------------------------------- soundness

  predicate RecordOk(r: Record, latest: int) {
    && (r.status.state == RUNNING <==> r.status.pid > 0)
    && (r.status.state != RUNNING ==> r.status.pid == -1)
    && (r.status.startCount == 0 <==> r.lastStart == None)
    && (r.status.state == LOADED ==> r.lastStart == None)
    && (r.lastStart.Some? ==> r.lastStart.value <= latest)
    && (r.status.state == WAITING ==>
          r.lastStart.Some? && r.status.restartAt >= r.lastStart.value + r.spec.throttle)
    && (r.status.state in {RUNNING, EXITED, WAITING} ==> r.lastStart.Some?)
    && (r.status.state !in {WAITING, FAILED} ==> r.status.restartAt == 0)
  }

  lemma NextRecordOk(l: Ledger, e: Event)
    requires e.job in l.table && RecordOk(l.table[e.job], l.latest) && Permitted(l, e)
    ensures RecordOk(NextRecord(l.table[e.job], e), if e.Start? || e.Reap? then e.at else l.latest)
  {
  }

  lemma RecordStaysOk(r: Record, latest: int, later: int)
    requires RecordOk(r, latest) && latest <= later
    ensures RecordOk(r, later) && (r.status.state == RUNNING <==> r.status.pid > 0)
  {
  }

  predicate RecordsOk(l: Ledger) {
    forall j :: j in l.table ==> j < l.loads && RecordOk(l.table[j], l.latest)
  }

  lemma NextRecordsOk(l: Ledger, e: Event)
    requires RecordsOk(l) && Permitted(l, e)
    ensures RecordsOk(Next(l, e)) && Next(l, e).latest >= l.latest
  {
    var l' := Next(l, e);
    forall j | j in l'.table
      ensures j < l'.loads && RecordOk(l'.table[j], l'.latest)
    {
      if j == e.job && !e.Load? {
        NextRecordOk(l, e);
      } else if j != e.job {
        hide RecordOk;
        RecordStaysOk(l.table[j], l.latest, l'.latest);
      }
    }
  }

  predicate Apart(l: Ledger) {
    forall j, k :: j in l.table && k in l.table && j != k ==>
      && l.table[j].spec.name != l.table[k].spec.name
      && (l.table[j].status.state == RUNNING ==> l.table[j].status.pid != l.table[k].status.pid)
  }

  lemma NextApart(l: Ledger, e: Event)
    requires RecordsOk(l) && Apart(l) && Permitted(l, e)
    ensures Apart(Next(l, e))
  {
    var l' := Next(l, e);
    NextRecordsOk(l, e);
    forall j, k | j in l'.table && k in l'.table && j != k
      ensures l'.table[j].spec.name != l'.table[k].spec.name
      ensures l'.table[j].status.state == RUNNING ==> l'.table[j].status.pid != l'.table[k].status.pid
    {
      RecordStaysOk(l'.table[j], l'.latest, l'.latest);
      RecordStaysOk(l'.table[k], l'.latest, l'.latest);
      hide RecordOk, RecordsOk;
    }
  }

  predicate Sound(l: Ledger) {
    RecordsOk(l) && Apart(l)
  }

  /**
   * In every history: RUNNING exactly with a pid, no two loaded jobs share a
   * label or a running pid, and a waiting job waits at least its throttle from
   * its last start.
   */
  lemma {:induction false} LegalIsSound(h: History)
    requires Legal(h)
    ensures Sound(Replay(h))
  {
    if h != [] {
      LegalIsSound(h[..|h| - 1]);
      hide Next, Permitted, RecordsOk, Apart;
      NextRecordsOk(Replay(h[..|h| - 1]), h[|h| - 1]);
      NextApart(Replay(h[..|h| - 1]), h[|h| - 1]);
    }
  }
}
