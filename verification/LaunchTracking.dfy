/**
 * The registry's invariant: its history is legal, the jobs it lists have the
 * fields the history gives them, and the unreaped children are the pids of
 * the running jobs; and what the sweeps over all jobs report.
 */
module LaunchTracking {
  import opened Common
  import opened LaunchHistory
  import opened LaunchSystem

  /** A job's fields as a value. */
  datatype Card = Card(number: nat, spec: Spec, status: Status)

  /** The registry lists exactly the loaded jobs, with the fields of their records. */
  ghost predicate Matches(cs: seq<Card>, t: map<nat, Record>) {
    && (forall i, k :: 0 <= i < k < |cs| ==> cs[i].number != cs[k].number)
    && (forall i {:trigger cs[i]} :: 0 <= i < |cs| ==>
          && cs[i].number in t
          && t[cs[i].number].spec == cs[i].spec && t[cs[i].number].status == cs[i].status)
    && (forall n {:trigger n in t} :: n in t ==> exists i :: 0 <= i < |cs| && cs[i].number == n)
  }

  lemma Updated(cs: seq<Card>, t: map<nat, Record>, i: nat, r: Record)
    requires Matches(cs, t) && i < |cs|
    ensures Matches(cs[i := Card(cs[i].number, r.spec, r.status)], t[cs[i].number := r])
  {
    var cs', t' := cs[i := Card(cs[i].number, r.spec, r.status)], t[cs[i].number := r];
    forall n | n in t'
      ensures exists k :: 0 <= k < |cs'| && cs'[k].number == n
    {
      if n == cs[i].number {
        assert cs'[i].number == n;
      } else {
        var k :| 0 <= k < |cs| && cs[k].number == n;
        assert cs'[k].number == n;
      }
    }
  }

  /** The pids of the running jobs. */
  ghost function Pids(t: map<nat, Record>): set<int> {
    set n | n in t && t[n].status.state == RUNNING :: t[n].status.pid
  }

  predicate Timely(l: Ledger, e: Event, clock: int) {
    (e.Start? || e.Reap? ==> l.latest <= e.at <= clock) && (!e.Start? && !e.Reap? ==> l.latest <= clock)
  }

  /** The guard of an event, on the fields of its job and the running pids. */
  ghost predicate Guard(c: Card, running: set<int>, e: Event) {
    && e.job == c.number
    && match e
       case Start(_, cause, at, pid) =>
         && MayTry(c.spec, c.status, cause) && pid > 0 && pid !in running
         && (cause == Restart ==> c.status.restartAt <= at)
       case StartFailed(_, cause) => MayTry(c.spec, c.status, cause)
       case Reap(_, _, _) => c.status.state == RUNNING
       case Stop(_, exit) => exit.Some? <==> c.status.state == RUNNING
       case _ => false
  }

  ghost function PidsThen(c: Card, running: set<int>, e: Event): set<int> {
    match e
    case Start(_, _, _, pid) => running + {pid}
    case Reap(_, _, _) => running - {c.status.pid}
    case Stop(_, Some(_)) => running - {c.status.pid}
    case _ => running
  }

  lemma PidsGone(l: Ledger, c: Card, e: Event, p: int)
    requires Sound(l) && Permitted(l, e) && !e.Load? && !e.Unload?
    requires e.job == c.number && c.number in l.table && l.table[c.number].status == c.status
    requires p in Pids(Next(l, e).table)
    ensures p in PidsThen(c, Pids(l.table), e)
  {
    var t, t' := l.table, Next(l, e).table;
    var n :| n in t' && t'[n].status.state == RUNNING && t'[n].status.pid == p;
    RecordStaysOk(t[n], l.latest, l.latest);
    RecordStaysOk(t[e.job], l.latest, l.latest);
    hide RecordsOk, RecordOk;
    if n != e.job {
      assert t[n] == t'[n] && p in Pids(t);
    }
  }

  lemma PidsKept(l: Ledger, c: Card, e: Event, p: int)
    requires Permitted(l, e) && !e.Load? && !e.Unload?
    requires e.job == c.number && c.number in l.table && l.table[c.number].status == c.status
    requires p in PidsThen(c, Pids(l.table), e)
    ensures p in Pids(Next(l, e).table)
  {
    var t, t' := l.table, Next(l, e).table;
    if e.Start? && p == e.pid {
      assert e.job in t' && t'[e.job].status.pid == p;
    } else {
      var n :| n in t && t[n].status.state == RUNNING && t[n].status.pid == p;
      assert n in t' && t'[n].status.state == RUNNING && t'[n].status.pid == p;
    }
  }

  lemma PidsAfter(l: Ledger, c: Card, e: Event)
    requires Sound(l) && Permitted(l, e) && !e.Load? && !e.Unload?
    requires e.job == c.number && c.number in l.table && l.table[c.number].status == c.status
    ensures Pids(Next(l, e).table) == PidsThen(c, Pids(l.table), e)
  {
    hide Sound, Permitted, Next, Pids, PidsThen;
    forall p
      ensures p in Pids(Next(l, e).table) <==> p in PidsThen(c, Pids(l.table), e)
    {
      if p in Pids(Next(l, e).table) {
        PidsGone(l, c, e, p);
      }
      if p in PidsThen(c, Pids(l.table), e) {
        PidsKept(l, c, e, p);
      }
    }
  }

  /** What the registry's invariant says of its history and its jobs' fields. */
  ghost predicate Tracks(h: History, cs: seq<Card>, running: set<int>, clock: int) {
    && Legal(h)
    && Matches(cs, Replay(h).table)
    && running == Pids(Replay(h).table)
    && Replay(h).latest <= clock
  }

  function Then(c: Card, e: Event): Card {
    c.(status := NextStatus(Record(c.spec, c.status, None), e))
  }

  lemma GuardPermits(h: History, cs: seq<Card>, running: set<int>, clock: int, i: nat, e: Event)
    requires Tracks(h, cs, running, clock) && i < |cs|
    requires Guard(cs[i], running, e) && Timely(Replay(h), e, clock)
    ensures Sound(Replay(h)) && Permitted(Replay(h), e)
  {
    LegalIsSound(h);
    var t := Replay(h).table;
    if e.Start? {
      forall k | k in t
        ensures t[k].status.pid != e.pid
      {
      }
    }
  }

  lemma Later(h: History, cs: seq<Card>, running: set<int>, clock: int, clock': int)
    requires Tracks(h, cs, running, clock) && clock <= clock'
    ensures Tracks(h, cs, running, clock') && Replay(h).latest <= clock
  {
  }

  lemma Append(h: History, e: Event)
    requires Legal(h) && Permitted(Replay(h), e)
    ensures Legal(h + [e]) && Replay(h + [e]) == Next(Replay(h), e)
  {
    hide Permitted, Next;
    assert (h + [e])[..|h|] == h;
  }

  lemma NextMatches(l: Ledger, cs: seq<Card>, i: nat, e: Event)
    requires Matches(cs, l.table) && i < |cs| && e.job == cs[i].number && !e.Load? && !e.Unload?
    ensures Matches(cs[i := Then(cs[i], e)], Next(l, e).table)
  {
    assert e.job in l.table && l.table[e.job].spec == cs[i].spec && l.table[e.job].status == cs[i].status;
    hide Matches;
    Updated(cs, l.table, i, NextRecord(l.table[e.job], e));
  }

  /** An event whose guard holds keeps the invariant, on one changed job. */
  lemma Happens(h: History, cs: seq<Card>, running: set<int>, clock: int, i: nat, e: Event)
    requires Tracks(h, cs, running, clock) && i < |cs|
    requires Guard(cs[i], running, e) && Timely(Replay(h), e, clock)
    ensures Tracks(h + [e], cs[i := Then(cs[i], e)], PidsThen(cs[i], running, e), clock)
  {
    hide Sound, Permitted, Replay, Legal, Pids;
    GuardPermits(h, cs, running, clock, i, e);
    Append(h, e);
    NextMatches(Replay(h), cs, i, e);
    assert cs[i].number in Replay(h).table;
    hide Matches;
    PidsAfter(Replay(h), cs[i], e);
  }

  lemma HappensTo(h: History, cs: seq<Card>, now: seq<Card>, running: set<int>, clock: int, i: nat, e: Event)
    requires Tracks(h, cs, running, clock) && i < |cs| == |now|
    requires Guard(cs[i], running, e) && Timely(Replay(h), e, clock)
    requires forall k {:trigger now[k]} :: 0 <= k < |cs| ==> now[k] == if k == i then Then(cs[i], e) else cs[k]
    ensures Tracks(h + [e], now, PidsThen(cs[i], running, e), clock)
  {
    hide Tracks, Guard, Timely;
    Happens(h, cs, running, clock, i, e);
    assert now == cs[i := Then(cs[i], e)];
  }

  lemma NumbersDiffer(h: History, cs: seq<Card>, running: set<int>, clock: int)
    requires Tracks(h, cs, running, clock)
    ensures DistinctNumbers(cs)
  {
    hide Legal, Pids, Replay;
  }

  lemma RunningIsChild(h: History, cs: seq<Card>, running: set<int>, clock: int, i: nat)
    requires Tracks(h, cs, running, clock) && i < |cs|
    ensures cs[i].status.state == RUNNING <==> cs[i].status.pid > 0
    ensures cs[i].status.state == RUNNING ==> cs[i].status.pid in running
  {
    LegalIsSound(h);
    hide Legal, Replay;
    assert cs[i].number in Replay(h).table;
  }

  // ------------------------------------------------------- loading, unloading

  lemma OmitMembers<T>(s: seq<T>, i: nat)
    requires i < |s|
    ensures forall x :: x in Omit(s, i) ==> x in s
  {
  }

  const EPARSE := -3

  /** What parsing a property list and building a job from it gave. */
  datatype Parsed = Good(spec: Spec) | Bad(rc: int)

  datatype File = File(name: string, parsed: Parsed)

  /** strlen at least 7, ending in ".plist". */
  predicate IsPlist(name: string) {
    |name| >= 7 && name[|name| - 6..] == ".plist"
  }

  /** The names of property lists: something before the suffix. */
  lemma PlistNames(name: string)
    ensures IsPlist(name) <==> exists stem :: stem != "" && name == stem + ".plist"
  {
    if IsPlist(name) {
      assert name == name[..|name| - 6] + ".plist";
    }
  }

  function Plists(files: seq<File>): nat {
    if files == [] then 0 else Plists(files[..|files| - 1]) + if IsPlist(files[|files| - 1].name) then 1 else 0
  }

  predicate Adds(f: File, earlier: seq<Spec>, taken: set<string>) {
    && IsPlist(f.name) && f.parsed.Good? && f.parsed.spec.name !in taken
    && forall s :: s in earlier ==> s.name != f.parsed.spec.name
  }

  /** The jobs a directory adds to a registry whose labels are taken. */
  function NewSpecs(files: seq<File>, taken: set<string>): seq<Spec> {
    if files == [] then []
    else
      var earlier, f := NewSpecs(files[..|files| - 1], taken), files[|files| - 1];
      if Adds(f, earlier, taken) then earlier + [f.parsed.spec] else earlier
  }

  predicate Defines(files: seq<File>, name: string) {
    exists f :: f in files && IsPlist(f.name) && f.parsed.Good? && f.parsed.spec.name == name
  }

  /** Every label a directory defines and no loaded job has is loaded, once; and nothing else. */
  lemma {:induction false} NewSpecsAreNew(files: seq<File>, taken: set<string>, name: string)
    ensures (exists s :: s in NewSpecs(files, taken) && s.name == name) <==> name !in taken && Defines(files, name)
    ensures forall i, k :: 0 <= i < k < |NewSpecs(files, taken)| ==>
      NewSpecs(files, taken)[i].name != NewSpecs(files, taken)[k].name
  {
    if files != [] {
      var init, f := files[..|files| - 1], files[|files| - 1];
      assert files == init + [f];
      NewSpecsAreNew(init, taken, name);
      assert Defines(files, name) <==>
        Defines(init, name) || (IsPlist(f.name) && f.parsed.Good? && f.parsed.spec.name == name);
      var earlier, specs := NewSpecs(init, taken), NewSpecs(files, taken);
      if Adds(f, earlier, taken) {
        assert specs[|earlier|] == f.parsed.spec;
        assert forall s :: s in specs <==> s in earlier || s == f.parsed.spec;
      }
    }
  }

  function Omit<T>(s: seq<T>, i: nat): seq<T>
    requires i < |s|
  {
    s[..i] + s[i + 1..]
  }

  lemma LoadMatches(l: Ledger, cs: seq<Card>, spec: Spec)
    requires Matches(cs, l.table) && forall n :: n in l.table ==> n < l.loads
    ensures Matches(cs + [Card(l.loads, spec, FRESH)], Next(l, Load(l.loads, spec)).table)
  {
    var e := Load(l.loads, spec);
    var cs', t' := cs + [Card(e.job, spec, FRESH)], Next(l, e).table;
    forall n | n in t'
      ensures exists k :: 0 <= k < |cs'| && cs'[k].number == n
    {
      if n == e.job {
        assert cs'[|cs|].number == n;
      } else {
        var k :| 0 <= k < |cs| && cs[k].number == n;
        assert cs'[k].number == n;
      }
    }
  }

  lemma Loads(h: History, cs: seq<Card>, running: set<int>, clock: int, spec: Spec)
    requires Tracks(h, cs, running, clock)
    requires forall k {:trigger cs[k]} :: 0 <= k < |cs| ==> cs[k].spec.name != spec.name
    ensures var n := Replay(h).loads; Tracks(h + [Load(n, spec)], cs + [Card(n, spec, FRESH)], running, clock)
  {
    hide Legal, Replay;
    var l, e := Replay(h), Load(Replay(h).loads, spec);
    LegalIsSound(h);
    assert forall n :: n in l.table ==> n < l.loads && exists k :: 0 <= k < |cs| && cs[k].number == n;
    assert Permitted(l, e);
    hide Matches, Sound, Permitted, Pids;
    Append(h, e);
    LoadMatches(l, cs, spec);
    SamePids(l.table, Next(l, e).table, e.job);
  }

  lemma SamePids(t: map<nat, Record>, t': map<nat, Record>, job: nat)
    requires forall n :: n != job ==> (n in t <==> n in t') && (n in t ==> t[n] == t'[n])
    requires job in t ==> t[job].status.state != RUNNING
    requires job in t' ==> t'[job].status.state != RUNNING
    ensures Pids(t) == Pids(t')
  {
    forall p
      ensures p in Pids(t) <==> p in Pids(t')
    {
      if p in Pids(t) {
        var n :| n in t && t[n].status.state == RUNNING && t[n].status.pid == p;
        assert n in t';
      }
      if p in Pids(t') {
        var n :| n in t' && t'[n].status.state == RUNNING && t'[n].status.pid == p;
        assert n in t;
      }
    }
  }

  lemma UnloadMatches(t: map<nat, Record>, cs: seq<Card>, i: nat)
    requires Matches(cs, t) && i < |cs|
    ensures Matches(Omit(cs, i), t - {cs[i].number})
  {
    var cs', t' := Omit(cs, i), t - {cs[i].number};
    forall n | n in t'
      ensures exists k :: 0 <= k < |cs'| && cs'[k].number == n
    {
      var k :| 0 <= k < |cs| && cs[k].number == n;
      assert cs'[if k < i then k else k - 1].number == n;
    }
  }

  lemma Unloads(h: History, cs: seq<Card>, running: set<int>, clock: int, i: nat)
    requires Tracks(h, cs, running, clock) && i < |cs| && cs[i].status.state != RUNNING
    ensures Tracks(h + [Event.Unload(cs[i].number)], Omit(cs, i), running, clock)
  {
    hide Legal, Replay;
    var l, e := Replay(h), Event.Unload(cs[i].number);
    assert cs[i].number in l.table && l.table[cs[i].number].status.state != RUNNING;
    hide Matches, Pids;
    Append(h, e);
    UnloadMatches(l.table, cs, i);
    SamePids(l.table, Next(l, e).table, e.job);
  }

  lemma NamesDiffer(h: History, cs: seq<Card>, running: set<int>, clock: int)
    requires Tracks(h, cs, running, clock)
    ensures DistinctNames(cs)
  {
    LegalIsSound(h);
    hide Legal, Replay, Pids;
  }

  /**
   * Running jobs and unreaped children correspond one to one, a job is RUNNING
   * exactly when it has a pid, and no two jobs share a label.
   */
  lemma OneToOne(h: History, cs: seq<Card>, running: set<int>, clock: int)
    requires Tracks(h, cs, running, clock)
    ensures forall i {:trigger cs[i]} :: 0 <= i < |cs| ==>
      && (cs[i].status.state == RUNNING <==> cs[i].status.pid > 0)
      && (cs[i].status.state == RUNNING ==> cs[i].status.pid in running)
    ensures forall p {:trigger p in running} :: p in running ==>
      exists i :: 0 <= i < |cs| && cs[i].status.state == RUNNING && cs[i].status.pid == p
    ensures forall i, k :: 0 <= i < k < |cs| ==>
      && cs[i].spec.name != cs[k].spec.name
      && (cs[i].status.state == cs[k].status.state == RUNNING ==> cs[i].status.pid != cs[k].status.pid)
  {
    LegalIsSound(h);
    hide Legal, Replay, RecordOk;
    var t := Replay(h).table;
    forall i {:trigger cs[i]} | 0 <= i < |cs|
      ensures (cs[i].status.state == RUNNING <==> cs[i].status.pid > 0)
      ensures cs[i].status.state == RUNNING ==> cs[i].status.pid in running
    {
      RecordStaysOk(t[cs[i].number], Replay(h).latest, Replay(h).latest);
    }
    forall p {:trigger p in running} | p in running
      ensures exists i :: 0 <= i < |cs| && cs[i].status.state == RUNNING && cs[i].status.pid == p
    {
      var n :| n in t && t[n].status.state == RUNNING && t[n].status.pid == p;
      var i :| 0 <= i < |cs| && cs[i].number == n;
      assert cs[i].status.pid == p;
    }
  }

  lemma NoneRunning(h: History, cs: seq<Card>, was: seq<Card>, running: set<int>, clock: int)
    requires Tracks(h, cs, running, clock) && SweptTo(Stopping, was, cs, |cs|)
    ensures running == {}
  {
    OneToOne(h, cs, running, clock);
  }

  // ------------------------------------------------------- sweeps and reports

  predicate OncePerJob(s: History) {
    forall a, b :: 0 <= a < b < |s| ==> s[a].job != s[b].job
  }

  predicate Reaps(s: History) {
    OncePerJob(s) && forall e :: e in s ==> e.Reap?
  }

  predicate Restarts(s: History) {
    OncePerJob(s) && forall e :: e in s ==> (e.Start? || e.StartFailed?) && e.cause == Restart
  }

  predicate Mentions(s: History, job: nat) {
    exists k :: 0 <= k < |s| && s[k].job == job
  }

  /** A running job whose child has already exited. */
  predicate Ended(c: Card, ps: Processes) {
    && c.status.state == RUNNING
    && c.status.pid in ps && ps[c.status.pid].kin == Ours && ps[c.status.pid].exit.Some?
  }

  predicate Unmentioned(s: History, cs: seq<Card>, from: nat) {
    forall k {:trigger cs[k]} :: from <= k < |cs| ==> !Mentions(s, cs[k].number)
  }

  predicate DistinctNames(cs: seq<Card>) {
    forall i, k :: 0 <= i < |cs| && 0 <= k < |cs| && i != k ==> cs[i].spec.name != cs[k].spec.name
  }

  predicate DistinctNumbers(cs: seq<Card>) {
    forall i, k :: 0 <= i < |cs| && 0 <= k < |cs| && i != k ==> cs[i].number != cs[k].number
  }

  /** Nothing but the job of this number has changed. */
  predicate Only(was: seq<Card>, now: seq<Card>, number: nat) {
    && |was| == |now|
    && forall k {:trigger now[k]} :: 0 <= k < |was| ==>
         && now[k].number == was[k].number && now[k].spec == was[k].spec
         && (was[k].number != number ==> now[k] == was[k])
  }

  lemma OnlyThen(cs: seq<Card>, now: seq<Card>, i: nat, e: Event)
    requires |now| == |cs|
    requires forall k {:trigger now[k]} :: 0 <= k < |cs| ==> now[k] == if k == i then Then(cs[k], e) else cs[k]
    ensures forall n {:trigger Only(cs, now, n)} :: (i < |cs| ==> n == cs[i].number) ==> Only(cs, now, n)
  {
  }

  /** What unloading a job does: a running one is stopped first. */
  function UnloadEvents(job: nat, exit: Option<Exit>): History {
    if exit.Some? then [Event.Stop(job, exit), Event.Unload(job)] else [Event.Unload(job)]
  }

  lemma TwoEvents(h: History, job: nat, exit: Option<Exit>)
    ensures h + UnloadEvents(job, exit) ==
      (if exit.Some? then h + [Event.Stop(job, exit)] else h) + [Event.Unload(job)]
  {
  }

  lemma OnlyOneGone(was: seq<Card>, now: seq<Card>, i: nat)
    requires i < |was| && DistinctNumbers(was) && Only(was, now, was[i].number)
    ensures Omit(now, i) == Omit(was, i)
  {
  }

  /** What a sweep over all jobs is to do to each. */
  datatype Sweep = RestartingDue(time: int) | StartingAtLoad | Stopping

  predicate Swept(sweep: Sweep, was: Card, now: Card) {
    match sweep
    case RestartingDue(time) =>
      if was.status.state == WAITING && was.status.restartAt <= time then now.status.state in {RUNNING, FAILED}
      else now == was
    case StartingAtLoad =>
      if was.spec.runAtLoad && was.status.state == LOADED then now.status.state in {RUNNING, FAILED} else now == was
    case Stopping => if was.status.state == RUNNING then now.status.state == STOPPED else now == was
  }

  /** The sweep has done the first n jobs and left the others alone. */
  predicate SweptTo(sweep: Sweep, was: seq<Card>, now: seq<Card>, n: nat) {
    && |was| == |now| && DistinctNumbers(was)
    && forall k {:trigger now[k]} :: 0 <= k < |was| ==>
         && now[k].number == was[k].number
         && if k < n then Swept(sweep, was[k], now[k]) else now[k] == was[k]
  }

  lemma NothingSwept(sweep: Sweep, cs: seq<Card>)
    requires DistinctNumbers(cs)
    ensures SweptTo(sweep, cs, cs, 0)
  {
  }

  lemma SweptNext(sweep: Sweep, cs: seq<Card>, now: seq<Card>, i: nat)
    requires SweptTo(sweep, cs, now, i) && i < |cs|
    ensures now[i] == cs[i] && |now| == |cs|
  {
  }

  lemma NextSwept(sweep: Sweep, cs: seq<Card>, was: seq<Card>, now: seq<Card>, i: nat)
    requires SweptTo(sweep, cs, was, i) && i < |cs| && Only(was, now, was[i].number)
    requires was[i] == cs[i] ==> Swept(sweep, cs[i], now[i])
    ensures SweptTo(sweep, cs, now, i + 1)
  {
  }

  lemma NothingMentioned(cs: seq<Card>, ps: Processes)
    ensures Unmentioned([], cs, 0) && Settles(ps, ps) && Reaps([]) && Restarts([])
  {
  }

  lemma NextJob(s: History, cs: seq<Card>, i: nat)
    requires i < |cs| && Unmentioned(s, cs, i)
    ensures Unmentioned(s, cs, i + 1) && !Mentions(s, cs[i].number)
  {
  }

  lemma NextEvent(s: History, cs: seq<Card>, i: nat, e: Event)
    requires i < |cs| && Unmentioned(s, cs, i) && e.job == cs[i].number && Reaps(s)
    requires DistinctNumbers(cs)
    ensures Unmentioned(s + [e], cs, i + 1)
    ensures e.Reap? ==> Reaps(s + [e])
  {
    OneMoreJob(s, e);
    hide Mentions;
    forall k {:trigger cs[k]} | i + 1 <= k < |cs|
      ensures !Mentions(s + [e], cs[k].number)
    {
      assert cs[k].number != cs[i].number;
    }
  }

  lemma OneMoreJob(s: History, e: Event)
    requires OncePerJob(s) && !Mentions(s, e.job)
    ensures OncePerJob(s + [e]) && Mentions(s + [e], e.job)
    ensures forall n :: n != e.job && Mentions(s + [e], n) ==> Mentions(s, n)
  {
    var s' := s + [e];
    assert s'[|s|] == e;
    forall n | n != e.job && Mentions(s', n)
      ensures Mentions(s, n)
    {
      var k :| 0 <= k < |s'| && s'[k].job == n;
      assert s[k].job == n;
    }
  }

  /** One kind of event each, for different jobs. */
  predicate AtLoadStarts(s: History) {
    OncePerJob(s) && forall e :: e in s ==> (e.Start? || e.StartFailed?) && e.cause == AtLoad
  }

  predicate Stops(s: History) {
    OncePerJob(s) && forall e :: e in s ==> e.Stop? && e.reaped.Some?
  }

  /** Of the first n jobs, those to be started at load were attempted. */
  predicate AllAttempted(s: History, cs: seq<Card>, n: nat) {
    forall k {:trigger cs[k]} :: 0 <= k < n && k < |cs| ==>
      (Mentions(s, cs[k].number) <==> cs[k].spec.runAtLoad && cs[k].status.state == LOADED)
  }

  lemma NoneAttempted(cs: seq<Card>)
    ensures AllAttempted([], cs, 0)
  {
  }

  lemma NextAttempt(s: History, cs: seq<Card>, i: nat, tried: bool, e: Event)
    requires i < |cs| && AllAttempted(s, cs, i) && Unmentioned(s, cs, i) && e.job == cs[i].number && DistinctNumbers(cs)
    requires tried <==> cs[i].spec.runAtLoad && cs[i].status.state == LOADED
    ensures AllAttempted(if tried then s + [e] else s, cs, i + 1)
  {
    if tried {
      assert (s + [e])[|s|] == e;
      forall n ensures Mentions(s + [e], n) <==> Mentions(s, n) || n == e.job {
        if Mentions(s, n) {
          var k :| 0 <= k < |s| && s[k].job == n;
          assert (s + [e])[k].job == n;
        }
        if n != e.job && Mentions(s + [e], n) {
          var k :| 0 <= k < |s + [e]| && (s + [e])[k].job == n;
          assert s[k].job == n;
        }
      }
    }
    hide Mentions;
  }

  /** How many of the start attempts succeeded. */
  function Successes(s: History): nat {
    if s == [] then 0 else Successes(s[..|s| - 1]) + if s[|s| - 1].Start? then 1 else 0
  }

  function Joined(ends: seq<seq<Call>>): seq<Call> {
    if ends == [] then [] else Joined(ends[..|ends| - 1]) + ends[|ends| - 1]
  }

  /** Each stop of a running job ended its child, with the grace period. */
  predicate EachEnds(ends: seq<seq<Call>>, stops: History, cs: seq<Card>, timeout: int) {
    && |ends| == |stops|
    && forall k {:trigger ends[k]} :: 0 <= k < |ends| ==> EndsAJob(ends[k], stops[k], cs, timeout)
  }

  predicate EndsAJob(calls: seq<Call>, stop: Event, cs: seq<Card>, timeout: int) {
    && stop.Stop? && stop.reaped.Some?
    && exists i :: 0 <= i < |cs| && cs[i].number == stop.job && cs[i].status.state == RUNNING &&
         Ends(calls, cs[i].status.pid, timeout, stop.reaped.value)
  }

  lemma NoEnds(cs: seq<Card>, timeout: int)
    ensures EachEnds([], [], cs, timeout) && Joined([]) == []
  {
  }

  /** When all have been stopped, there is nobody to end. */
  lemma NoneToEnd(was: seq<Card>, now: seq<Card>, ends: seq<seq<Call>>, stops: History, timeout: int)
    requires SweptTo(Stopping, was, now, |now|) && EachEnds(ends, stops, now, timeout)
    ensures ends == [] && stops == []
  {
    hide EndsAJob;
    if |ends| > 0 {
      NoJobToEnd(ends[0], stops[0], now, timeout);
      assert false;
    }
  }

  lemma NoJobToEnd(calls: seq<Call>, stop: Event, cs: seq<Card>, timeout: int)
    requires forall i {:trigger cs[i]} :: 0 <= i < |cs| ==> cs[i].status.state != RUNNING
    ensures !EndsAJob(calls, stop, cs, timeout)
  {
    hide Ends;
  }

  lemma NextEnd(calls: seq<Call>, ends: seq<seq<Call>>, stops: History, cs: seq<Card>, timeout: int, i: nat,
                more: seq<Call>, exit: Exit)
    requires EachEnds(ends, stops, cs, timeout) && i < |cs| && Ends(more, cs[i].status.pid, timeout, exit)
    requires cs[i].status.state == RUNNING
    ensures EachEnds(ends + [more], stops + [Event.Stop(cs[i].number, Some(exit))], cs, timeout)
    ensures calls + Joined(ends) + more == calls + Joined(ends + [more])
  {
    hide Ends;
    assert (ends + [more])[..|ends|] == ends;
    assert calls + (Joined(ends) + more) == calls + Joined(ends) + more;
    assert EndsAJob(more, Event.Stop(cs[i].number, Some(exit)), cs, timeout);
    hide EndsAJob;
  }

  lemma NoEvents()
    ensures AtLoadStarts([]) && Stops([])
  {
  }

  lemma NextOfKind(s: History, cs: seq<Card>, i: nat, e: Event)
    requires i < |cs| && Unmentioned(s, cs, i) && e.job == cs[i].number && DistinctNumbers(cs)
    ensures Unmentioned(s + [e], cs, i + 1)
    ensures AtLoadStarts(s) && (e.Start? || e.StartFailed?) && e.cause == AtLoad ==> AtLoadStarts(s + [e])
    ensures Stops(s) && e.Stop? && e.reaped.Some? ==> Stops(s + [e])
    ensures Restarts(s) && (e.Start? || e.StartFailed?) && e.cause == Restart ==> Restarts(s + [e])
    ensures Successes(s + [e]) == Successes(s) + if e.Start? then 1 else 0
  {
    assert (s + [e])[..|s|] == s;
    if OncePerJob(s) {
      OneMoreJob(s, e);
    }
    assert Mentions(s + [e], e.job) by { assert (s + [e])[|s|] == e; }
    forall n | n != e.job && Mentions(s + [e], n)
      ensures Mentions(s, n)
    {
      var k :| 0 <= k < |s + [e]| && (s + [e])[k].job == n;
      assert s[k].job == n;
    }
    hide Mentions;
    forall k {:trigger cs[k]} | i + 1 <= k < |cs|
      ensures !Mentions(s + [e], cs[k].number)
    {
      assert cs[k].number != cs[i].number;
    }
  }
}
