/**
 * What one tick does to every job, and when its result is the number of jobs
 * that changed state. For the k-th job, `exits[k]` is the event of its being
 * reaped in the tick's first loop, and `now` is the clock read between the loops.
 */
module LaunchTick {
  import opened Common
  import opened LaunchHistory
  import opened LaunchSystem
  import opened LaunchTracking

  function Collected(c: Card, exit: Option<Event>): Card {
    if exit.Some? then Then(c, exit.value) else c
  }

  /** The first loop has come as far as `exits` is long. */
  predicate Reaping(was: seq<Card>, mid: seq<Card>, exits: seq<Option<Event>>) {
    && |exits| <= |was| == |mid|
    && (forall k {:trigger exits[k]} :: 0 <= k < |exits| && exits[k].Some? ==>
          exits[k].value.Reap? && exits[k].value.job == was[k].number && was[k].status.state == RUNNING)
    && forall k {:trigger mid[k]} :: 0 <= k < |was| ==>
         mid[k] == if k < |exits| then Collected(was[k], exits[k]) else was[k]
  }

  /** Of the first n jobs, those whose child had exited before the tick were reaped, with its status. */
  predicate Reported(exits: seq<Option<Event>>, cs: seq<Card>, ps: Processes)
  {
    |exits| <= |cs| &&
    forall k {:trigger exits[k]} :: 0 <= k < |exits| && Ended(cs[k], ps) ==>
      exits[k].Some? && exits[k].value.Reap? && exits[k].value.exit == ps[cs[k].status.pid].exit.value
  }

  predicate Between(exits: seq<Option<Event>>, from: int, to: int) {
    forall k {:trigger exits[k]} :: 0 <= k < |exits| && exits[k].Some? ==>
      exits[k].value.Reap? && from <= exits[k].value.at <= to
  }

  predicate Listed(exits: seq<Option<Event>>, reaps: History) {
    forall k {:trigger exits[k]} :: 0 <= k < |exits| && exits[k].Some? ==> exits[k].value in reaps
  }

  /** The jobs that are in another state than before. */
  function Changed(was: seq<Card>, now: seq<Card>): set<nat>
    requires |was| == |now|
  {
    set k: nat | k < |was| && was[k].status.state != now[k].status.state
  }

  /** Both loops: every job reaped or not, then every job due restarted, or left FAILED. */
  predicate Ticked(was: seq<Card>, exits: seq<Option<Event>>, mid: seq<Card>, now: int, end: seq<Card>) {
    && |exits| == |was|
    && Reaping(was, mid, exits)
    && SweptTo(RestartingDue(now), mid, end, |mid|)
  }

  /** The job was reaped, wants to be restarted, and its throttle had passed when the second loop began. */
  predicate AtOnce(c: Card, exit: Option<Event>, now: int) {
    && exit.Some? && exit.value.Reap?
    && Accepts(c.spec.keepAlive, exit.value.exit) && exit.value.at + c.spec.throttle <= now
  }

  predicate SomeAtOnce(was: seq<Card>, exits: seq<Option<Event>>, now: int)
    requires |exits| == |was|
  {
    exists k :: 0 <= k < |was| && AtOnce(was[k], exits[k], now)
  }

  // ------------------------------------------------------------ the two loops

  /** Where the first loop is: what it reaped, of which job, when, and the states it changed. */
  predicate ReapedTo(was: seq<Card>, mid: seq<Card>, exits: seq<Option<Event>>, reaps: History, from: int, to: int) {
    && Reaping(was, mid, exits)
    && |reaps| == |Changed(was, mid)|
    && Between(exits, from, to)
    && Listed(exits, reaps)
    && Reaps(reaps) && Unmentioned(reaps, was, |exits|) && DistinctNumbers(was)
  }

  lemma NextReapedTo(was: seq<Card>, mid: seq<Card>, mid': seq<Card>, exits: seq<Option<Event>>, reaps: History,
                     from: int, to: int, exit: Option<Event>, later: int)
    requires ReapedTo(was, mid, exits, reaps, from, to) && to <= later
    requires |exits| < |was| == |mid| == |mid'|
    requires exit.Some? ==>
      && exit.value.Reap? && exit.value.job == was[|exits|].number && was[|exits|].status.state == RUNNING
      && from <= exit.value.at <= later
    requires forall k {:trigger mid'[k]} :: 0 <= k < |was| ==>
      mid'[k] == if k == |exits| then Collected(mid[k], exit) else mid[k]
    ensures ReapedTo(was, mid', exits + [exit], if exit.Some? then reaps + [exit.value] else reaps, from, later)
  {
    NextReaped(was, mid, mid', exits, exit);
    NextBetween(exits, from, to, exit, later);
    hide Reaping, Changed, Between, Reaps, Unmentioned, DistinctNumbers;
    NextJob(reaps, was, |exits|);
    if exit.Some? {
      NextEvent(reaps, was, |exits|, exit.value);
    }
    var reaps' := if exit.Some? then reaps + [exit.value] else reaps;
    forall k {:trigger (exits + [exit])[k]} | 0 <= k < |exits + [exit]| && (exits + [exit])[k].Some?
      ensures (exits + [exit])[k].value in reaps'
    {
      if k < |exits| {
        assert exits[k].value in reaps;
      }
    }
  }

  lemma NoneReaped(cs: seq<Card>, ps: Processes, clock: int)
    requires DistinctNumbers(cs)
    ensures Reported([], cs, ps) && ReapedTo(cs, cs, [], [], clock, clock)
    ensures Changed(cs, cs) == {}
  {
  }

  lemma NextReaped(was: seq<Card>, mid: seq<Card>, mid': seq<Card>, exits: seq<Option<Event>>, exit: Option<Event>)
    requires Reaping(was, mid, exits) && |exits| < |was| == |mid'|
    requires exit.Some? ==>
      exit.value.Reap? && exit.value.job == was[|exits|].number && was[|exits|].status.state == RUNNING
    requires forall k {:trigger mid'[k]} :: 0 <= k < |was| ==>
      mid'[k] == if k == |exits| then Collected(mid[k], exit) else mid[k]
    ensures Reaping(was, mid', exits + [exit])
    ensures Changed(was, mid') == Changed(was, mid) + if exit.Some? then {|exits|} else {}
    ensures |Changed(was, mid')| == |Changed(was, mid)| + if exit.Some? then 1 else 0
  {
    var i := |exits|;
    assert mid[i] == was[i];
    assert i !in Changed(was, mid);
    assert exit.Some? ==> mid'[i].status.state in {WAITING, EXITED};
    forall k: nat
      ensures k in Changed(was, mid') <==> k in Changed(was, mid) || (k == i && exit.Some?)
    {
      if k < |was| {
        assert mid'[k] == if k == i then Collected(mid[k], exit) else mid[k];
      }
    }
  }

  lemma ReapedToAt(was: seq<Card>, mid: seq<Card>, exits: seq<Option<Event>>, reaps: History, from: int, to: int)
    requires ReapedTo(was, mid, exits, reaps, from, to)
    ensures |was| == |mid| && (|exits| < |was| ==> mid[|exits|] == was[|exits|])
    ensures Reaps(reaps) && |reaps| == |Changed(was, mid)|
  {
    hide Changed, Reaps;
  }

  lemma NextReported(exits: seq<Option<Event>>, cs: seq<Card>, ps: Processes, exit: Option<Event>)
    requires Reported(exits, cs, ps) && |exits| < |cs|
    requires Ended(cs[|exits|], ps) ==>
      exit.Some? && exit.value.Reap? && exit.value.exit == ps[cs[|exits|].status.pid].exit.value
    ensures Reported(exits + [exit], cs, ps)
  {
  }

  lemma NextBetween(exits: seq<Option<Event>>, from: int, to: int, exit: Option<Event>, later: int)
    requires Between(exits, from, to) && to <= later
    requires exit.Some? ==> exit.value.Reap? && from <= exit.value.at <= later
    ensures Between(exits + [exit], from, later)
  {
  }

  lemma LaterBetween(exits: seq<Option<Event>>, from: int, to: int, later: int)
    requires Between(exits, from, to) && to <= later
    ensures Between(exits, from, later)
  {
  }

  lemma NextRestarted(mid: seq<Card>, was: seq<Card>, now: seq<Card>, time: int, i: nat)
    requires SweptTo(RestartingDue(time), mid, was, i) && i < |mid| && Only(was, now, was[i].number)
    ensures Changed(mid, now) == Changed(mid, was) + if now[i].status.state != mid[i].status.state then {i} else {}
    ensures |Changed(mid, now)| ==
      |Changed(mid, was)| + if now[i].status.state != mid[i].status.state then 1 else 0
  {
    assert was[i] == mid[i] && i !in Changed(mid, was);
    forall k: nat | k < |mid|
      ensures k != i ==> now[k] == was[k]
    {
      assert now[k].number == was[k].number == mid[k].number;
      assert was[i].number == mid[i].number;
    }
  }

  /** Where the second loop is: the jobs it has gone through, and what it did to them. */
  predicate RestartedTo(cards: seq<Card>, now: seq<Card>, time: int, restarts: History, i: nat) {
    && |cards| == |now|
    && SweptTo(RestartingDue(time), cards, now, i)
    && Restarts(restarts) && Unmentioned(restarts, cards, i)
    && |restarts| == |Changed(cards, now)|
  }

  lemma NoneRestarted(cards: seq<Card>, time: int)
    requires DistinctNumbers(cards)
    ensures RestartedTo(cards, cards, time, [], 0)
  {
    NothingMentioned(cards, map[]);
    NothingSwept(RestartingDue(time), cards);
    assert Changed(cards, cards) == {};
  }

  lemma NextRestartedTo(cards: seq<Card>, was: seq<Card>, now: seq<Card>, time: int, restarts: History, i: nat,
                        e: Option<Event>)
    requires RestartedTo(cards, was, time, restarts, i) && i < |cards| && Only(was, now, was[i].number)
    requires was[i] == cards[i] ==> Swept(RestartingDue(time), cards[i], now[i])
    requires e.Some? <==> now[i].status.state != was[i].status.state
    requires e.Some? ==>
      (e.value.Start? || e.value.StartFailed?) && e.value.cause == Restart && e.value.job == cards[i].number
    ensures RestartedTo(cards, now, time, if e.Some? then restarts + [e.value] else restarts, i + 1)
  {
    SweptNext(RestartingDue(time), cards, was, i);
    NextRestarted(cards, was, now, time, i);
    NextSwept(RestartingDue(time), cards, was, now, i);
    assert DistinctNumbers(cards);
    hide SweptTo, Swept, Only, Changed, Restarts, Unmentioned, DistinctNumbers;
    NextJob(restarts, cards, i);
    if e.Some? {
      NextOfKind(restarts, cards, i, e.value);
    }
  }

  lemma NoneStillDue(was: seq<Card>, now: seq<Card>, time: int)
    requires SweptTo(RestartingDue(time), was, now, |now|)
    ensures forall k {:trigger now[k]} :: 0 <= k < |now| && now[k].status.state == WAITING ==>
      now[k].status.restartAt > time
  {
  }

  lemma AllRestarted(cards: seq<Card>, now: seq<Card>, time: int, restarts: History, n: nat)
    requires RestartedTo(cards, now, time, restarts, n)
    ensures |cards| == |now| && Restarts(restarts) && SweptTo(RestartingDue(time), cards, now, n)
    ensures |restarts| == |Changed(cards, now)|
  {
  }

  // ------------------------------------------------------ what a tick counts

  lemma BothSteps(was: seq<Card>, exits: seq<Option<Event>>, mid: seq<Card>, now: int, end: seq<Card>, k: nat)
    requires Ticked(was, exits, mid, now, end) && k < |was|
    ensures k in Changed(was, mid) <==> exits[k].Some?
    ensures k in Changed(was, mid) && k in Changed(mid, end) <==> AtOnce(was[k], exits[k], now)
  {
    assert mid[k] == Collected(was[k], exits[k]);
    assert Swept(RestartingDue(now), mid[k], end[k]) by { assert end[k] == end[k]; }
    if exits[k].Some? {
      assert was[k].status.state == RUNNING;
    }
  }

  lemma Union(a: set<nat>, b: set<nat>)
    ensures |a + b| == |a| + |b| - |a * b|
  {
    assert a + b == a + (b - a);
    assert b == (b - a) + (a * b);
  }

  lemma Smaller(a: set<nat>, b: set<nat>)
    requires a <= b
    ensures |a| <= |b|
  {
    assert b == a + (b - a);
  }

  /**
   * A tick counts the changes of each loop. That is never less than the number
   * of jobs whose state is another than before the tick, and the two agree
   * exactly when no job was reaped and restarted at once.
   */
  lemma TickCountsTransitions(was: seq<Card>, exits: seq<Option<Event>>, mid: seq<Card>, now: int, end: seq<Card>)
    requires Ticked(was, exits, mid, now, end)
    ensures var counted := |Changed(was, mid)| + |Changed(mid, end)|;
      && counted >= |Changed(was, end)|
      && (counted == |Changed(was, end)| <==> !SomeAtOnce(was, exits, now))
  {
    var a, b, c := Changed(was, mid), Changed(mid, end), Changed(was, end);
    forall k: nat | k < |was|
      ensures k in a <==> exits[k].Some?
      ensures k in a * b <==> AtOnce(was[k], exits[k], now)
    {
      BothSteps(was, exits, mid, now, end, k);
    }
    Union(a, b);
    Smaller(c, a + b);
    if SomeAtOnce(was, exits, now) {
      var k: nat :| k < |was| && AtOnce(was[k], exits[k], now);
      assert k in a * b;
    } else {
      assert a * b == {};
      assert c == a + b;
    }
  }

  /** No running job has a KeepAlive that can accept an exit. */
  predicate NoneRestartable(was: seq<Card>) {
    forall k {:trigger was[k]} :: 0 <= k < |was| && was[k].status.state == RUNNING ==> was[k].spec.keepAlive == Never
  }

  predicate SureRestart(c: Card, ps: Processes) {
    Ended(c, ps) && Accepts(c.spec.keepAlive, ps[c.status.pid].exit.value) && c.spec.throttle == 0
  }

  predicate SomeSureRestart(was: seq<Card>, ps: Processes) {
    exists k :: 0 <= k < |was| && SureRestart(was[k], ps)
  }

  /**
   * What can be told before the tick: the count is right if no running job's
   * KeepAlive can accept an exit; and it is too high if some job's child has
   * already exited with a status its KeepAlive accepts, the job has no
   * throttle, and the tick reaped every child that had exited.
   */
  lemma ForeseenCount(was: seq<Card>, exits: seq<Option<Event>>, mid: seq<Card>, now: int, end: seq<Card>,
                      ps: Processes, from: int)
    requires Ticked(was, exits, mid, now, end) && Between(exits, from, now)
    ensures var counted := |Changed(was, mid)| + |Changed(mid, end)|;
      && (NoneRestartable(was) ==> counted == |Changed(was, end)|)
      && (Reported(exits, was, ps) && SomeSureRestart(was, ps) ==> counted > |Changed(was, end)|)
  {
    TickCountsTransitions(was, exits, mid, now, end);
    if k :| 0 <= k < |was| && AtOnce(was[k], exits[k], now) {
      assert was[k].status.state == RUNNING;
    }
    if k :| 0 <= k < |was| && SureRestart(was[k], ps) && Reported(exits, was, ps) {
      assert exits[k].Some?;
      assert AtOnce(was[k], exits[k], now);
    }
  }

  /**
   * And exactly which registries have a tick that counts too many, at whatever
   * time it begins: those where some running job's KeepAlive is not Never.
   */
  lemma CanCountTwice(was: seq<Card>, from: int)
    requires DistinctNumbers(was)
    ensures (exists exits, mid, now, end ::
               Ticked(was, exits, mid, now, end) && Between(exits, from, now) && from <= now &&
               |Changed(was, mid)| + |Changed(mid, end)| > |Changed(was, end)|)
            <==> !NoneRestartable(was)
  {
    if k :| 0 <= k < |was| && was[k].status.state == RUNNING && was[k].spec.keepAlive != Never {
      var exits, mid, now, end := CountedTwice(was, k, from);
    }
    if exits, mid, now, end :| Ticked(was, exits, mid, now, end) && Between(exits, from, now) && from <= now &&
                               |Changed(was, mid)| + |Changed(mid, end)| > |Changed(was, end)| {
      TickCountsTransitions(was, exits, mid, now, end);
      var k :| 0 <= k < |was| && AtOnce(was[k], exits[k], now);
      assert was[k].status.state == RUNNING;
    }
  }

  /** Such a tick: job k is reaped and started again, and all other jobs that are due fail to start. */
  lemma CountedTwice(was: seq<Card>, k: nat, from: int)
    returns (exits: seq<Option<Event>>, mid: seq<Card>, now: int, end: seq<Card>)
    requires DistinctNumbers(was) && k < |was|
    requires was[k].status.state == RUNNING && was[k].spec.keepAlive != Never
    ensures Ticked(was, exits, mid, now, end) && Between(exits, from, now) && from <= now
    ensures k !in Changed(was, end) && k in Changed(was, mid) && k in Changed(mid, end)
    ensures |Changed(was, mid)| + |Changed(mid, end)| > |Changed(was, end)|
  {
    var exit := if was[k].spec.keepAlive == OnFailure then Killed(11) else ExitCode(0);
    var e := Event.Reap(was[k].number, from, exit);
    now := from + was[k].spec.throttle;
    var nothing: seq<Option<Event>> := seq(|was|, i => None);
    exits := nothing[k := Some(e)];
    mid := was[k := Then(was[k], e)];
    end := seq(|was|, i requires 0 <= i < |was| =>
      if mid[i].status.state == WAITING && mid[i].status.restartAt <= now
      then mid[i].(status := mid[i].status.(state := if i == k then RUNNING else FAILED))
      else mid[i]);
    assert Ticked(was, exits, mid, now, end);
    assert AtOnce(was[k], exits[k], now);
    TickCountsTransitions(was, exits, mid, now, end);
    BothSteps(was, exits, mid, now, end, k);
  }
}
