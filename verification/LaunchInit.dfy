/**
 * The supervisor process: boot, the supervision loop over whatever reloads,
 * requests, exits and delays come, and shutdown.
 */
module LaunchInit {
  import opened Common
  import opened LaunchHistory
  import opened LaunchSystem
  import opened LaunchTracking
  import opened LaunchTick
  import opened LaunchJobs
  import opened LaunchControl
  import opened XpcWire

  /** Whether a client connects, and the request it sends (None: none in time). */
  datatype Client = Nobody | Client(request: Option<Message>)

  /**
   * What one turn of the loop meets: a pending SIGHUP with the directory's
   * listing, the files on disk, and a client.
   */
  datatype Turn = Turn(hup: bool, listing: Option<seq<File>>, disk: map<string, Parsed>, client: Client)

  predicate Readable(listing: Option<seq<File>>) {
    listing.Some? ==> forall f :: f in listing.value && f.parsed.Bad? ==> f.parsed.rc != OK
  }

  predicate Feasible(t: Turn) {
    Readable(t.listing) && forall p :: p in t.disk && t.disk[p].Bad? ==> t.disk[p].rc != OK
  }

  /** A request, the jobs when it came, and every reply that was made to it. */
  datatype Exchange = Exchange(request: Message, jobs: seq<Card>, replies: seq<Message>)

  /** The replies that can go out: one whose frame is too long is dropped. */
  function Transmittable(replies: seq<Message>): seq<Message> {
    if replies == [] then []
    else Transmittable(replies[..|replies| - 1]) + if LastFits(replies) then [replies[|replies| - 1]] else []
  }

  /**
   * One reply was made, and it is the one transmitted; only for the status of
   * a job whose label leaves no room for it, nothing is.
   */
  predicate AnsweredOnce(x: Exchange) {
    && |x.replies| == 1 && x.replies[0].isReply && x.replies[0].id == x.request.id && CodeOf(x.replies[0]).Some?
    && Transmittable(x.replies) == if Unanswerable(x.request, x.jobs) then [] else x.replies
  }

  /** The requests that turns bring, in order. */
  function Requests(turns: seq<Turn>): seq<Message> {
    if turns == [] then []
    else
      var t := turns[|turns| - 1];
      Requests(turns[..|turns| - 1]) +
      if t.client.Client? && t.client.request.Some? then [t.client.request.value] else []
  }

  function Asked(log: seq<Exchange>): seq<Message> {
    seq(|log|, i requires 0 <= i < |log| => log[i].request)
  }

  lemma OneMoreExchange(log: seq<Exchange>, x: Exchange)
    ensures Asked(log + [x]) == Asked(log) + [x.request]
  {
  }

  predicate Asks(client: Client) {
    client.Client? && client.request.Some?
  }

  /** What a reload added to the history: one job per new label of the directory. */
  predicate Reloaded(was: History, now: History, specs: seq<Spec>) {
    && was <= now && |now| == |was| + |specs|
    && forall k :: |was| <= k < |now| ==> now[k].Load? && now[k].spec == specs[k - |was|]
  }

  lemma LoadsReload(was: History, jobs: seq<Job>, n: nat)
    requires n <= |jobs|
    ensures Reloaded(was, was + NewLoads(jobs, n), SpecsFrom(jobs, n))
  {
  }

  /** do_reload, if a SIGHUP came. */
  method Reload(reg: Registry, hup: bool, listing: Option<seq<File>>)
    requires reg.Valid() && Readable(listing)
    modifies reg`jobs, reg`history
    ensures reg.Valid()
    ensures forall k :: 0 <= k < |reg.jobs| ==> reg.jobs[k] in old(reg.jobs) || fresh(reg.jobs[k])
    ensures Reloaded(old(reg.history), reg.history,
                     if hup && listing.Some? then NewSpecs(listing.value, Names(old(reg.jobs))) else [])
  {
    hide Registry.Valid, NewLoads, NewSpecs, SpecsFrom, Plists, Names, Reloaded;
    ghost var was, n := reg.history, |reg.jobs|;
    NothingReloaded(was);
    if hup {
      var loaded, failed := reg.LoadDir(listing);
      if listing.Some? {
        LoadsReload(was, reg.jobs, n);
      }
    }
  }

  lemma NothingReloaded(h: History)
    ensures Reloaded(h, h, [])
  {
  }

  lemma OneReply(replies: seq<Message>)
    requires |replies| == 1
    ensures Transmittable(replies) == if LastFits(replies) then replies else []
  {
    assert Transmittable(replies[..0]) == [];
  }

  /** lctl_server_poll. */
  method Poll(server: Server, client: Client, disk: map<string, Parsed>, ghost log: seq<Exchange>)
    returns (ghost log': seq<Exchange>)
    requires server.reg.Valid() && forall x :: x in log ==> AnsweredOnce(x)
    requires forall p :: p in disk && disk[p].Bad? ==> disk[p].rc != OK
    modifies server.reg`jobs, server.reg`history, server.reg.jobs, server.reg.os
    ensures server.reg.Valid()
    ensures forall k :: 0 <= k < |server.reg.jobs| ==>
        server.reg.jobs[k] in old(server.reg.jobs) || fresh(server.reg.jobs[k])
    ensures forall x :: x in log' ==> AnsweredOnce(x)
    ensures Asked(log') == Asked(log) + if Asks(client) then [client.request.value] else []
    ensures if Asks(client) then Served(old(server.reg.history), server.reg.history)
            else server.reg.history == old(server.reg.history)
  {
    hide Registry.Valid, Answer, Served;
    log' := log;
    if client.Client? {
      var peer := new Peer();
      ghost var jobs := Cards(server.reg.jobs);
      ghost var code := server.HandleRequest(peer, client.request, disk);
      if client.request.Some? {
        var x := Exchange(client.request.value, jobs, peer.replies);
        OneReply(peer.replies);
        OneMoreExchange(log, x);
        log' := log + [x];
      }
    }
  }

  /**
   * One pass of the supervision loop: reload if asked to, one client, tick,
   * sleep. The history grows by the jobs that are new in the directory, then by
   * what the client asked for, then by what the tick reaped and restarted.
   */
  method Pass(server: Server, polling: bool, t: Turn, ghost log: seq<Exchange>)
    returns (ghost log': seq<Exchange>, ghost reloaded: History, ghost served: History)
    requires server.reg.Valid() && Feasible(t) && forall x :: x in log ==> AnsweredOnce(x)
    modifies server.reg`jobs, server.reg`history, server.reg.jobs, server.reg.os
    ensures server.reg.Valid()
    ensures forall k :: 0 <= k < |server.reg.jobs| ==>
        server.reg.jobs[k] in old(server.reg.jobs) || fresh(server.reg.jobs[k])
    ensures forall x :: x in log' ==> AnsweredOnce(x)
    ensures Asked(log') == if polling then Asked(log) + Requests([t]) else Asked(log)
    ensures Reloaded(old(server.reg.history), reloaded,
                     if t.hup && t.listing.Some? then NewSpecs(t.listing.value, Names(old(server.reg.jobs))) else [])
    ensures if polling && Asks(t.client) then Served(reloaded, served) else served == reloaded
    ensures exists reaps, restarts ::
      Reaps(reaps) && Restarts(restarts) && server.reg.history == served + reaps + restarts
  {
    hide Registry.Valid, AnsweredOnce, Reloaded, Served, NewSpecs, Names, Reaps, Restarts;
    log' := log;
    assert [t][..0] == [];
    Reload(server.reg, t.hup, t.listing);
    reloaded := server.reg.history;
    assert forall k :: 0 <= k < |server.reg.jobs| ==>
        server.reg.jobs[k] in old(server.reg.jobs) || fresh(server.reg.jobs[k]);
    if polling {
      log' := Poll(server, t.client, t.disk, log);
    }
    served := server.reg.history;
    assert forall k :: 0 <= k < |server.reg.jobs| ==>
        server.reg.jobs[k] in old(server.reg.jobs) || fresh(server.reg.jobs[k]);
    Advance(server.reg);
  }

  /** The end of a pass: tick, and sleep. */
  method Advance(reg: Registry)
    requires reg.Valid()
    modifies reg`history, reg.jobs, reg.os
    ensures reg.Valid() && reg.os.clock >= old(reg.os.clock) + 10
    ensures exists reaps, restarts ::
      Reaps(reaps) && Restarts(restarts) && reg.history == old(reg.history) + reaps + restarts
  {
    hide Registry.Valid, Cards, Ticked, Changed, SomeAtOnce, SomeSureRestart, NoneRestartable, Between, Reported,
      Reaps, Restarts;
    var changes; ghost var reaps, restarts, exits, mid, now;
    changes, reaps, restarts, exits, mid, now := reg.Tick();
    reg.Sleep(10);
    assert Reaps(reaps) && Restarts(restarts) && reg.history == old(reg.history) + reaps + restarts;
  }

  lemma NoTurns(turns: seq<Turn>)
    ensures Requests(turns[..0]) == []
  {
  }

  lemma OneMoreTurn(turns: seq<Turn>, i: nat)
    requires i < |turns|
    ensures Requests(turns[..i + 1]) == Requests(turns[..i]) + Requests([turns[i]])
  {
    assert turns[..i + 1][..i] == turns[..i];
    assert [turns[i]][..0] == [];
  }

  /** The supervision loop. */
  method Supervise(server: Server, polling: bool, turns: seq<Turn>) returns (ghost log: seq<Exchange>)
    requires server.reg.Valid() && forall t :: t in turns ==> Feasible(t)
    modifies server.reg`jobs, server.reg`history, server.reg.jobs, server.reg.os
    ensures server.reg.Valid()
    ensures forall k :: 0 <= k < |server.reg.jobs| ==>
        server.reg.jobs[k] in old(server.reg.jobs) || fresh(server.reg.jobs[k])
    ensures forall x :: x in log ==> AnsweredOnce(x)
    ensures Asked(log) == if polling then Requests(turns) else []
    ensures old(server.reg.history) <= server.reg.history
  {
    hide Registry.Valid, AnsweredOnce, Requests, Feasible;
    log := [];
    NoTurns(turns);
    for i := 0 to |turns|
      invariant server.reg.Valid()
      invariant forall k :: 0 <= k < |server.reg.jobs| ==>
        server.reg.jobs[k] in old(server.reg.jobs) || fresh(server.reg.jobs[k])
      invariant forall x :: x in log ==> AnsweredOnce(x)
      invariant Asked(log) == if polling then Requests(turns[..i]) else []
      invariant old(server.reg.history) <= server.reg.history
    {
      OneMoreTurn(turns, i);
      ghost var reloaded, served;
      log, reloaded, served := Pass(server, polling, turns[i], log);
    }
    assert turns[..|turns|] == turns;
  }

  /** The jobs of the directory; none if it cannot be read. */
  function AtBoot(listing: Option<seq<File>>): seq<Spec> {
    if listing.Some? then NewSpecs(listing.value, {}) else []
  }

  /**
   * The history of a boot: the jobs of the directory are loaded, and then each
   * of those that are to run at load is started, or tried to be, once.
   */
  ghost predicate Booted(h: History, listing: Option<seq<File>>) {
    var specs := AtBoot(listing);
    && |specs| <= |h|
    && Reloaded([], h[..|specs|], specs)
    && AtLoadStarts(h[|specs|..])
    && forall k: nat :: k < |specs| ==> (Mentions(h[|specs|..], k) <==> specs[k].runAtLoad)
  }

  /** Jobs are numbered in the order of their loading, and nothing has happened to them yet. */
  predicate JustLoaded(l: Ledger, h: History) {
    && l.loads == |h| && (forall k :: k in l.table ==> k < |h|)
    && forall k {:trigger h[k]} :: 0 <= k < |h| ==>
         h[k].Load? && h[k].job == k && k in l.table && l.table[k] == Record(h[k].spec, FRESH, None)
  }

  lemma NextLoaded(l: Ledger, init: History, e: Event)
    requires JustLoaded(l, init) && e.Load? && Permitted(l, e)
    ensures JustLoaded(Next(l, e), init + [e])
  {
    hide Permitted;
    assert e.job == l.loads by { LoadNumber(l, e); }
    var l' := Next(l, e);
    assert forall k {:trigger l'.table[k]} :: k in l'.table && k != e.job ==> k in l.table && l'.table[k] == l.table[k];
  }

  lemma LoadNumber(l: Ledger, e: Event)
    requires e.Load? && Permitted(l, e)
    ensures e.job == l.loads
  {
  }

  lemma {:induction false} OnlyLoads(h: History)
    requires Legal(h) && forall e :: e in h ==> e.Load?
    ensures JustLoaded(Replay(h), h)
  {
    hide JustLoaded, Permitted, Next;
    if h == [] {
      NoLoads();
    } else {
      var init, last := h[..|h| - 1], h[|h| - 1];
      OnlyLoads(init);
      NextLoaded(Replay(init), init, last);
      assert init + [last] == h;
    }
  }

  lemma NoLoads()
    ensures JustLoaded(EMPTY, [])
  {
  }

  predicate IsNumbered(cs: seq<Card>, k: nat) {
    exists i :: 0 <= i < |cs| && cs[i].number == k
  }

  /** The jobs are those that were loaded, and nothing has happened to them yet. */
  ghost predicate AsLoaded(cs: seq<Card>, specs: seq<Spec>) {
    && (forall i {:trigger cs[i]} :: 0 <= i < |cs| ==>
          cs[i].number < |specs| && cs[i] == Card(cs[i].number, specs[cs[i].number], FRESH))
    && forall k: nat :: k < |specs| ==> IsNumbered(cs, k)
  }

  lemma LoadedAtBoot(h: History, cs: seq<Card>, specs: seq<Spec>, running: set<int>, clock: int)
    requires Tracks(h, cs, running, clock) && Reloaded([], h, specs)
    ensures AsLoaded(cs, specs)
  {
    OnlyLoads(h);
    hide Legal, Replay, JustLoaded, Matches, AsLoaded;
    CardsOfLoads(Replay(h), h, cs, specs);
  }

  lemma CardsOfLoads(l: Ledger, h: History, cs: seq<Card>, specs: seq<Spec>)
    requires JustLoaded(l, h) && Matches(cs, l.table) && |h| == |specs|
    requires forall k :: 0 <= k < |h| ==> h[k].Load? && h[k].spec == specs[k]
    ensures AsLoaded(cs, specs)
  {
    forall i {:trigger cs[i]} | 0 <= i < |cs|
      ensures cs[i].number < |specs| && cs[i] == Card(cs[i].number, specs[cs[i].number], FRESH)
    {
      assert cs[i].number in l.table;
      assert h[cs[i].number].Load?;
    }
    forall k: nat | k < |specs| ensures IsNumbered(cs, k) {
      assert h[k].Load? && k in l.table;
    }
  }

  lemma FreshAtBoot(reg: Registry, specs: seq<Spec>)
    requires reg.Valid() && Reloaded([], reg.history, specs)
    ensures AsLoaded(Cards(reg.jobs), specs)
  {
    hide Cards, Tracks, Reloaded, System.Valid, Children, OnlyOurs, AsLoaded;
    LoadedAtBoot(reg.history, Cards(reg.jobs), specs, Children(reg.os.procs), reg.os.clock);
  }

  lemma BootedBy(loads: History, starts: History, cs: seq<Card>, listing: Option<seq<File>>)
    requires Reloaded([], loads, AtBoot(listing)) && AsLoaded(cs, AtBoot(listing))
    requires AtLoadStarts(starts) && AllAttempted(starts, cs, |cs|)
    ensures Booted(loads + starts, listing)
  {
    var h, specs := loads + starts, AtBoot(listing);
    assert h[..|specs|] == loads && h[|specs|..] == starts;
    hide Mentions, AtLoadStarts, Reloaded, AtBoot;
    forall k: nat | k < |specs| ensures Mentions(starts, k) <==> specs[k].runAtLoad {
      assert IsNumbered(cs, k);
      var i :| 0 <= i < |cs| && cs[i].number == k;
      assert cs[i] == Card(k, specs[k], FRESH);
    }
  }

  /** Loading the daemon directory and starting what is to run at load. */
  method Boot(os: System, listing: Option<seq<File>>) returns (reg: Registry)
    requires os.Valid() && Children(os.procs) == {} && os.touched == [] && Readable(listing)
    modifies os
    ensures fresh(reg) && reg.Valid() && reg.os == os && forall k :: 0 <= k < |reg.jobs| ==> fresh(reg.jobs[k])
    ensures Booted(reg.history, listing)
  {
    hide Registry.Valid, Cards, Children, System.Valid, NewSpecs, Names, Reloaded, Booted, AsLoaded, AtLoadStarts,
      AllAttempted, SweptTo;
    reg := new Registry(os);
    NoNames();
    Reload(reg, true, listing);
    assert forall k :: 0 <= k < |reg.jobs| ==> fresh(reg.jobs[k]);
    ghost var loads, cards := reg.history, Cards(reg.jobs);
    FreshAtBoot(reg, AtBoot(listing));
    var started; ghost var starts;
    started, starts := reg.StartAll();
    BootedBy(loads, starts, cards, listing);
  }

  lemma NoNames()
    ensures Names([]) == {}
  {
  }

  /**
   * do_shutdown: every running child is ended with the grace period that is
   * configured, and nothing is left to do when the registry is freed.
   */
  method Shutdown(reg: Registry, timeout: int) returns (ghost stops: History, ghost ends: seq<seq<Call>>)
    requires reg.Valid()
    modifies reg`history, reg.jobs, reg.os
    ensures reg.Valid() && Children(reg.os.procs) == {}
    ensures reg.history == old(reg.history) + stops && Stops(stops)
    ensures reg.os.calls == old(reg.os.calls) + Joined(ends)
    ensures EachEnds(ends, stops, old(Cards(reg.jobs)), timeout)
  {
    hide Registry.Valid, Cards, Children, Stops, SweptTo, EachEnds;
    ghost var was := Cards(reg.jobs);
    var stopped;
    stopped, stops, ends := reg.StopAll(timeout);
    ghost var now := Cards(reg.jobs);
    ghost var more, others := reg.Free();
    NoneToEnd(was, now, others, more, 2000);
  }

  /**
   * catbsd-init from boot to shutdown. Its history begins with a boot. Whatever
   * the turns bring: the registry's invariant holds throughout, each request is answered exactly once (unless
   * its answer is too long to be transmitted) and in order, only the registry's
   * own children are signalled or reaped, and none is left when it ends: at
   * shutdown each is given the configured grace period.
   */
  method Init(os: System, listing: Option<seq<File>>, polling: bool, turns: seq<Turn>, timeout: int)
    returns (reg: Registry, ghost boot: History, ghost log: seq<Exchange>, ghost last: seq<Card>,
             ghost stops: History, ghost ends: seq<seq<Call>>)
    requires os.Valid() && Children(os.procs) == {} && os.touched == []
    requires Readable(listing) && forall t :: t in turns ==> Feasible(t)
    modifies os
    ensures reg.os == os && Legal(reg.history) && Booted(boot, listing) && boot <= reg.history
    ensures Children(os.procs) == {} && OnlyOurs(os.touched)
    ensures forall x :: x in log ==> AnsweredOnce(x)
    ensures Asked(log) == if polling then Requests(turns) else []
    ensures EachEnds(ends, stops, last, timeout)
    ensures exists h, calls :: boot <= h && reg.history == h + stops && os.calls == calls + Joined(ends)
  {
    hide Registry.Valid, AnsweredOnce, Requests, Feasible, Cards, OnlyOurs, System.Valid, Children, Stops, SweptTo,
      Booted, EachEnds, Joined;
    reg := Boot(os, listing);
    boot := reg.history;
    var server := new Server(reg);
    log := Supervise(server, polling, turns);
    assert forall k :: 0 <= k < |reg.jobs| ==> fresh(reg.jobs[k]);
    ghost var h, calls := reg.history, os.calls;
    last := Cards(reg.jobs);
    stops, ends := Shutdown(reg, timeout);
    assert boot <= h && reg.history == h + stops && os.calls == calls + Joined(ends);
    reg.Kept();
  }
}
