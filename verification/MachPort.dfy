/**
 * Mach ports over kqueue: each port's messages in a list of its own, and a
 * user event that only wakes receivers. Any number of threads send, receive
 * and wait; a section under a port's lock, a trigger and a return from
 * kevent are one step each.
 */
module MachPort {
  import opened Common
  import opened Chains

  type Bytes = seq<int>

  /** `triggered` is the port's EVFILT_USER event; it is added without EV_CLEAR, so it stays set. */
  datatype Port = Port(queue: seq<Bytes>, triggered: bool, sent: seq<Bytes>, taken: seq<Bytes>)

  datatype Pc =
    | Idle
    | Trigger(port: nat)                          // enqueued, about to wake receivers
    | Drain(port: nat, len: nat)                  // about to look in the queue
    | Block(port: nat, len: nat)                  // found it empty, in kevent on the port
    | Scan(ports: seq<nat>, at: nat)              // wait_any: about to look at ports[at]
    | Watch(ports: seq<nat>)                      // wait_any: in kevent on the supervisor

  /** What a call returned: of a message, the bytes that fit the caller's buffer; or an index into its ports. */
  datatype Event =
    | Received(port: nat, data: Bytes, len: nat, message: Bytes)
    | Reported(ports: seq<nat>, index: nat)

  datatype State = State(ports: seq<Port>, threads: seq<Pc>, log: seq<Event>)

  datatype Action =
    | Send(t: nat, port: nat, message: Bytes)
    | Receive(t: nat, port: nat, len: nat)
    | WaitAny(t: nat, ports: seq<nat>)
    | Continue(t: nat)
    | Interrupt(t: nat)
    | TimeOut(t: nat)

  predicate OnPorts(s: State, pc: Pc) {
    match pc
    case Idle => true
    case Trigger(p) => p < |s.ports|
    case Drain(p, len) => p < |s.ports| && len > 0
    case Block(p, len) => p < |s.ports| && len > 0
    case Scan(ps, at) => at < |ps| && forall i :: 0 <= i < |ps| ==> ps[i] < |s.ports|
    case Watch(ps) => ps != [] && forall i :: 0 <= i < |ps| ==> ps[i] < |s.ports|
  }

  /** kevent returns to a thread only when an event it waits for is set (or it times out). */
  predicate Awake(s: State, pc: Pc)
    requires OnPorts(s, pc)
  {
    match pc
    case Block(p, _) => s.ports[p].triggered
    case Watch(ps) => exists i :: 0 <= i < |ps| && s.ports[ps[i]].triggered
    case _ => true
  }

  predicate Enabled(s: State, a: Action) {
    && a.t < |s.threads|
    && OnPorts(s, s.threads[a.t])
    && match a
       case Send(t, p, m) => s.threads[t].Idle? && p < |s.ports| && m != []
       case Receive(t, p, len) => s.threads[t].Idle? && p < |s.ports| && len > 0
       case WaitAny(t, ps) => s.threads[t].Idle? && ps != [] && forall i :: 0 <= i < |ps| ==> ps[i] < |s.ports|
       case Continue(t) => !s.threads[t].Idle? && Awake(s, s.threads[t])
       case Interrupt(t) => s.threads[t].Block? || s.threads[t].Watch?
       case TimeOut(t) => s.threads[t].Block? || s.threads[t].Watch?
  }

  function Go(s: State, t: nat, pc: Pc): State
    requires t < |s.threads|
  {
    s.(threads := s.threads[t := pc])
  }

  function Min(a: nat, b: nat): nat {
    if a < b then a else b
  }

  function Resume(s: State, t: nat): State
    requires t < |s.threads| && OnPorts(s, s.threads[t]) && !s.threads[t].Idle?
  {
    match s.threads[t]
    case Trigger(p) => Go(s, t, Idle).(ports := s.ports[p := s.ports[p].(triggered := true)])
    case Drain(p, len) =>
      var port := s.ports[p];
      if port.queue == [] then Go(s, t, Block(p, len))
      else
        var m := port.queue[0];
        var port' := port.(queue := port.queue[1..], taken := port.taken + [m]);
        Go(s, t, Idle).(ports := s.ports[p := port'],
                        log := s.log + [Received(p, m[..Min(|m|, len)], len, m)])
    case Block(p, len) => Go(s, t, Drain(p, len))
    case Scan(ps, at) =>
      if s.ports[ps[at]].queue != [] then Go(s, t, Idle).(log := s.log + [Reported(ps, at)])
      else if at + 1 < |ps| then Go(s, t, Scan(ps, at + 1))
      else Go(s, t, Watch(ps))
    case Watch(ps) => Go(s, t, Scan(ps, 0))
  }

  function Step(s: State, a: Action): State
    requires Enabled(s, a)
  {
    match a
    case Send(t, p, m) =>
      var port := s.ports[p];
      Go(s, t, Trigger(p)).(ports := s.ports[p := port.(queue := port.queue + [m], sent := port.sent + [m])])
    case Receive(t, p, len) => Go(s, t, Drain(p, len))
    case WaitAny(t, ps) => Go(s, t, Scan(ps, 0))
    case Continue(t) => Resume(s, t)
    case Interrupt(t) => Resume(s, t)
    case TimeOut(t) => Go(s, t, Idle)
  }

  // ---------------------------------------------------------------- invariant

  /** What was taken and what is queued is what was sent, in that order. */
  predicate Fifo(port: Port) {
    port.sent == port.taken + port.queue
  }

  predicate Waking(s: State, p: nat) {
    exists t :: 0 <= t < |s.threads| && s.threads[t] == Trigger(p)
  }

  /** A port that was ever sent to is triggered, or a sender is just about to trigger it. */
  predicate NoLostWakeup(s: State) {
    forall p :: 0 <= p < |s.ports| && s.ports[p].sent != [] ==> s.ports[p].triggered || Waking(s, p)
  }

  predicate EventOk(s: State, e: Event) {
    e.Received? ==>
      && e.port < |s.ports| && e.message in s.ports[e.port].sent
      && e.data == e.message[..Min(|e.message|, e.len)]
  }

  /** The messages mach_msg_receive returned from port p, in order. */
  function Delivered(log: seq<Event>, p: nat): seq<Bytes> {
    if log == [] then []
    else
      var e := log[|log| - 1];
      Delivered(log[..|log| - 1], p) + if e.Received? && e.port == p then [e.message] else []
  }

  predicate Inv(s: State) {
    && (forall p :: 0 <= p < |s.ports| ==> Delivered(s.log, p) == s.ports[p].taken)
    && (forall p :: 0 <= p < |s.ports| ==> Fifo(s.ports[p]))
    && (forall t :: 0 <= t < |s.threads| ==> OnPorts(s, s.threads[t]))
    && NoLostWakeup(s)
    && (forall k :: 0 <= k < |s.log| ==> EventOk(s, s.log[k]))
  }

  predicate Init(s: State) {
    && (forall p :: 0 <= p < |s.ports| ==> s.ports[p] == Port([], false, [], []))
    && (forall t :: 0 <= t < |s.threads| ==> s.threads[t].Idle?)
    && s.log == []
  }

  /** Ports only gain messages and triggers. */
  predicate Grows(s: State, s': State) {
    && |s'.ports| == |s.ports|
    && forall p :: 0 <= p < |s.ports| ==>
         && s.ports[p].sent <= s'.ports[p].sent
         && (s.ports[p].triggered ==> s'.ports[p].triggered)
  }

  lemma StepGrows(s: State, a: Action)
    requires Enabled(s, a)
    ensures Grows(s, Step(s, a))
  {
  }

  lemma PrefixMembers(a: seq<Bytes>, b: seq<Bytes>)
    requires a <= b
    ensures forall m :: m in a ==> m in b
  {
    assert forall i :: 0 <= i < |a| ==> a[i] == b[i];
  }

  lemma EventStays(s: State, s': State, e: Event)
    requires Grows(s, s') && EventOk(s, e)
    ensures EventOk(s', e)
  {
    if e.Received? {
      PrefixMembers(s.ports[e.port].sent, s'.ports[e.port].sent);
    }
  }

  lemma StepKeepsFifo(s: State, a: Action)
    requires Inv(s) && Enabled(s, a)
    ensures forall p :: 0 <= p < |s.ports| ==> Fifo(Step(s, a).ports[p])
    ensures |Step(s, a).ports| == |s.ports|
  {
    forall p | 0 <= p < |s.ports|
      ensures Fifo(Step(s, a).ports[p])
    {
      var port := s.ports[p];
      assert Fifo(port);
      if port.queue != [] {
        assert port.taken + [port.queue[0]] + port.queue[1..] == port.taken + port.queue;
      }
    }
  }

  lemma StepKeepsWakeup(s: State, a: Action)
    requires Inv(s) && Enabled(s, a)
    ensures NoLostWakeup(Step(s, a))
  {
    var s' := Step(s, a);
    forall p | 0 <= p < |s'.ports| && s'.ports[p].sent != []
      ensures s'.ports[p].triggered || Waking(s', p)
    {
      if s.ports[p].sent != [] && !s.ports[p].triggered {
        var t :| 0 <= t < |s.threads| && s.threads[t] == Trigger(p);
        assert t != a.t ==> s'.threads[t] == Trigger(p);
      } else if s.ports[p].sent == [] {
        assert s'.threads[a.t] == Trigger(p);
      }
    }
  }

  lemma StepKeepsLog(s: State, a: Action)
    requires Inv(s) && Enabled(s, a)
    ensures forall k :: 0 <= k < |Step(s, a).log| ==> EventOk(Step(s, a), Step(s, a).log[k])
  {
    var s' := Step(s, a);
    StepGrows(s, a);
    forall k | 0 <= k < |s'.log|
      ensures EventOk(s', s'.log[k])
    {
      if k < |s.log| {
        EventStays(s, s', s.log[k]);
      } else {
        NewEvent(s, a.t);
      }
    }
  }

  lemma StepKeepsDelivered(s: State, a: Action)
    requires Inv(s) && Enabled(s, a)
    ensures var s' := Step(s, a); forall p :: 0 <= p < |s.ports| ==> Delivered(s'.log, p) == s'.ports[p].taken
  {
    var s' := Step(s, a);
    if s'.log != s.log {
      assert s'.log[..|s.log|] == s.log;
    }
  }

  lemma NewEvent(s: State, t: nat)
    requires Inv(s) && t < |s.threads| && OnPorts(s, s.threads[t]) && !s.threads[t].Idle?
    requires |Resume(s, t).log| > |s.log|
    ensures EventOk(Resume(s, t), Resume(s, t).log[|s.log|])
  {
    match s.threads[t]
    case Drain(p, len) => assert Fifo(s.ports[p]);
    case _ =>
  }

  lemma StepKeepsInv(s: State, a: Action)
    requires Inv(s) && Enabled(s, a)
    ensures Inv(Step(s, a))
  {
    StepKeepsFifo(s, a);
    StepKeepsWakeup(s, a);
    StepKeepsDelivered(s, a);
    StepKeepsLog(s, a);
    StepKeepsThreads(s, a);
    hide Step, Enabled, Fifo, NoLostWakeup, EventOk, Delivered, OnPorts;
  }

  lemma StepKeepsThreads(s: State, a: Action)
    requires Inv(s) && Enabled(s, a)
    ensures forall t :: 0 <= t < |Step(s, a).threads| ==> OnPorts(Step(s, a), Step(s, a).threads[t])
  {
    hide Fifo, NoLostWakeup, EventOk, Delivered;
  }

  predicate LegalRun(s: State, run: seq<Action>)
    decreases |run|
  {
    run == [] || (Enabled(s, run[0]) && LegalRun(Step(s, run[0]), run[1..]))
  }

  function After(s: State, run: seq<Action>): State
    requires LegalRun(s, run)
    decreases |run|
  {
    if run == [] then s else After(Step(s, run[0]), run[1..])
  }

  lemma {:induction false} RunKeepsInv(s: State, run: seq<Action>)
    requires Inv(s) && LegalRun(s, run)
    ensures Inv(After(s, run))
    decreases |run|
  {
    if run != [] {
      StepKeepsInv(s, run[0]);
      RunKeepsInv(Step(s, run[0]), run[1..]);
    }
  }

  /**
   * In every interleaving of senders, receivers and waiters, what was sent to a
   * port is what its receivers were given, each message once and in the order
   * sent, then what is still queued; and while anything is queued the port is
   * triggered or its sender is about to trigger it.
   */
  lemma FifoNoLostWakeup(s: State, run: seq<Action>)
    requires Init(s) && LegalRun(s, run)
    ensures var e := After(s, run);
      forall p :: 0 <= p < |e.ports| ==>
        && e.ports[p].sent == Delivered(e.log, p) + e.ports[p].queue
        && (e.ports[p].queue != [] ==> e.ports[p].triggered || Waking(e, p))
  {
    RunKeepsInv(s, run);
    var e := After(s, run);
    assert forall p :: 0 <= p < |e.ports| ==> Fifo(e.ports[p]);
  }

  /**
   * Whatever a receive ever copied out is the beginning of a message that was
   * sent to that port: all of it, or as much as the caller's buffer takes.
   */
  lemma ReceiveCopiesASentMessage(s: State, run: seq<Action>)
    requires Init(s) && LegalRun(s, run)
    ensures var e := After(s, run);
      forall k :: 0 <= k < |e.log| && e.log[k].Received? ==>
        var r := e.log[k];
        && r.port < |e.ports| && r.message in e.ports[r.port].sent
        && r.data <= r.message && |r.data| == Min(|r.message|, r.len)
  {
    RunKeepsInv(s, run);
    var e := After(s, run);
    forall k | 0 <= k < |e.log| && e.log[k].Received?
      ensures EventOk(e, e.log[k])
    {
    }
  }

  /** Once all senders have returned, nobody can sleep on a port that has a message. */
  lemma NobodySleepsOnMessages(s: State, run: seq<Action>, t: nat)
    requires Init(s) && LegalRun(s, run)
    requires var e := After(s, run);
      && t < |e.threads| && OnPorts(e, e.threads[t])
      && (forall u :: 0 <= u < |e.threads| ==> !e.threads[u].Trigger?)
    ensures var e := After(s, run);
      match e.threads[t]
      case Block(p, _) => e.ports[p].queue != [] ==> Enabled(e, Continue(t))
      case Watch(ps) => (exists i :: 0 <= i < |ps| && e.ports[ps[i]].queue != []) ==> Enabled(e, Continue(t))
      case _ => true
  {
    RunKeepsInv(s, run);
    var e := After(s, run);
    assert forall p :: 0 <= p < |e.ports| ==> Fifo(e.ports[p]);
  }

  lemma {:induction false} RunGrows(s: State, run: seq<Action>)
    requires LegalRun(s, run)
    ensures |After(s, run).ports| == |s.ports|
    ensures forall p :: 0 <= p < |s.ports| ==> s.ports[p].sent <= After(s, run).ports[p].sent
    decreases |run|
  {
    if run != [] {
      StepGrows(s, run[0]);
      hide Step, Enabled;
      RunGrows(Step(s, run[0]), run[1..]);
    }
  }

  /** wait_any returns to thread t, and this is what it hands out. */
  predicate Reports(s: State, t: nat, r: Event) {
    Enabled(s, Continue(t)) && r.Reported? && Step(s, Continue(t)).log == s.log + [r]
  }

  /**
   * What a report is worth: until somebody else takes a message from the port
   * it names, a receive on that port finds a message at once, and never waits.
   */
  lemma ReportedPortIsReady(s: State, before: seq<Action>, t: nat, r: Event, after: seq<Action>, len: nat)
    requires Init(s) && LegalRun(s, before) && Reports(After(s, before), t, r) && len > 0
    requires LegalRun(Step(After(s, before), Continue(t)), after)
    requires var e := After(Step(After(s, before), Continue(t)), after);
      && t < |e.threads| && e.threads[t].Idle?
      && (r.index < |r.ports| ==>
            var p := r.ports[r.index];
            p < |e.ports| && p < |After(s, before).ports| ==>
              |e.ports[p].taken| == |After(s, before).ports[p].taken|)
    ensures var e := After(Step(After(s, before), Continue(t)), after);
      && r.index < |r.ports| && r.ports[r.index] < |e.ports|
      && var p := r.ports[r.index];
         && Enabled(e, Receive(t, p, len)) && Enabled(Step(e, Receive(t, p, len)), Continue(t))
         && var f := Step(Step(e, Receive(t, p, len)), Continue(t));
            && e.ports[p].queue != [] && f.threads[t].Idle?
            && f.log == e.log + [Received(p, e.ports[p].queue[0][..Min(|e.ports[p].queue[0]|, len)], len,
                                          e.ports[p].queue[0])]
  {
    var e0 := After(s, before);
    RunKeepsInv(s, before);
    ReportShows(e0, t, r);
    hide Step, Enabled, Reports, Inv;
    var p := r.ports[r.index];
    var e1 := Step(e0, Continue(t));
    RunKeepsInv(e1, after);
    RunGrows(e1, after);
    var e := After(e1, after);
    StillQueued(e0, e1, e, p);
    hide After, LegalRun;
    ReceivesAtOnce(e, t, p, len);
  }

  lemma {:induction false} LastAction(s: State, run: seq<Action>)
    requires LegalRun(s, run) && run != []
    ensures var n := |run| - 1;
      && LegalRun(s, run[..n]) && Enabled(After(s, run[..n]), run[n])
      && After(s, run) == Step(After(s, run[..n]), run[n])
    decreases |run|
  {
    var n := |run| - 1;
    hide Enabled, Step;
    if n == 0 {
      assert run[..0] == [] && run[1..] == [];
    } else {
      LastAction(Step(s, run[0]), run[1..]);
      assert run[1..][..n - 1] == run[..n][1..] && run[1..][n - 1] == run[n];
    }
  }

  lemma LogGrows(s: State, a: Action)
    requires Enabled(s, a)
    ensures var s' := Step(s, a); s.log <= s'.log && |s'.log| <= |s.log| + 1
  {
  }

  /**
   * Every report in the log of any run was made by a step that saw a message in
   * the very port it names.
   */
  lemma {:induction false} ReportedWasReady(s: State, run: seq<Action>, k: nat) returns (n: nat)
    requires Init(s) && LegalRun(s, run) && k < |After(s, run).log| && After(s, run).log[k].Reported?
    ensures n < |run| && LegalRun(s, run[..n])
    ensures var e, r := After(s, run[..n]), After(s, run).log[k];
      && |e.log| == k && Enabled(e, run[n]) && Step(e, run[n]).log == e.log + [r]
      && r.index < |r.ports| && r.ports[r.index] < |e.ports| && e.ports[r.ports[r.index]].queue != []
    decreases |run|
  {
    n := |run| - 1;
    LastAction(s, run);
    var e := After(s, run[..n]);
    LogGrows(e, run[n]);
    if k < |e.log| {
      hide Step, Enabled, After;
      var m := n;
      n := ReportedWasReady(s, run[..m], k);
      assert run[..m][..n] == run[..n] && run[..m][n] == run[n];
    } else {
      RunKeepsInv(s, run[..n]);
      hide After, LegalRun;
      LoggedReport(e, run[n]);
    }
  }

  lemma LoggedReport(s: State, a: Action)
    requires Inv(s) && Enabled(s, a) && |Step(s, a).log| > |s.log|
    ensures var r := Step(s, a).log[|s.log|];
      r.Reported? ==>
        && r.index < |r.ports| && r.ports[r.index] < |s.ports| && s.ports[r.ports[r.index]].queue != []
        && a.Continue? && s.threads[a.t] == Scan(r.ports, r.index)
        && Step(s, a).ports == s.ports
  {
    hide Inv, NoLostWakeup, Fifo, EventOk, Delivered;
  }

  function Continues(t: nat, n: nat): seq<Action> {
    if n == 0 then [] else [Continue(t)] + Continues(t, n - 1)
  }

  /** A scan that nobody interferes with reports the first port, from where it is, that has a message. */
  lemma {:induction false} ScanFindsFirst(s: State, t: nat, at: nat, first: nat)
    requires t < |s.threads| && s.threads[t].Scan? && OnPorts(s, s.threads[t]) && s.threads[t].at == at
    requires at <= first < |s.threads[t].ports| && s.ports[s.threads[t].ports[first]].queue != []
    requires forall i :: at <= i < first ==> s.ports[s.threads[t].ports[i]].queue == []
    ensures LegalRun(s, Continues(t, first - at + 1))
    ensures var e := After(s, Continues(t, first - at + 1));
      && t < |e.threads| && e.threads[t].Idle?
      && e.log == s.log + [Reported(s.threads[t].ports, first)]
    decreases first - at
  {
    var next := Step(s, Continue(t));
    var run := Continues(t, first - at + 1);
    assert run[0] == Continue(t) && run[1..] == Continues(t, first - at);
    assert s.ports[s.threads[t].ports[at]].queue == [] || at == first;
    if at < first {
      ScanFindsFirst(next, t, at + 1, first);
    } else {
      assert Continues(t, 0) == [];
    }
  }

  /** So wait_any, called and left alone while some port has a message, hands out the first such index. */
  lemma WaitAnyFindsFirst(s: State, t: nat, ports: seq<nat>, first: nat)
    requires t < |s.threads| && s.threads[t].Idle? && first < |ports|
    requires forall i :: 0 <= i < |ports| ==> ports[i] < |s.ports|
    requires s.ports[ports[first]].queue != []
    requires forall i :: 0 <= i < first ==> s.ports[ports[i]].queue == []
    ensures var run := [WaitAny(t, ports)] + Continues(t, first + 1);
      && LegalRun(s, run)
      && var e := After(s, run);
         t < |e.threads| && e.threads[t].Idle? && e.log == s.log + [Reported(ports, first)]
  {
    var run := [WaitAny(t, ports)] + Continues(t, first + 1);
    assert OnPorts(s, s.threads[t]);
    var next := Step(s, WaitAny(t, ports));
    assert run[1..] == Continues(t, first + 1);
    ScanFindsFirst(next, t, 0, first);
    assert LegalRun(next, run[1..]);
  }

  lemma ReportShows(s: State, t: nat, r: Event)
    requires Inv(s) && Reports(s, t, r)
    ensures var s' := Step(s, Continue(t));
      && Inv(s') && s'.ports == s.ports && r.index < |r.ports| && r.ports[r.index] < |s.ports|
      && s.ports[r.ports[r.index]].queue != []
  {
    StepKeepsInv(s, Continue(t));
    LoggedReport(s, Continue(t));
    hide Inv;
  }

  lemma StillQueued(e0: State, e1: State, e: State, p: nat)
    requires Inv(e0) && Inv(e) && e1.ports == e0.ports && p < |e0.ports| && e0.ports[p].queue != []
    requires p < |e.ports| && e1.ports[p].sent <= e.ports[p].sent && |e.ports[p].taken| == |e0.ports[p].taken|
    ensures e.ports[p].queue != []
  {
    assert Fifo(e.ports[p]) && Fifo(e0.ports[p]);
  }

  lemma ReceivesAtOnce(e: State, t: nat, p: nat, len: nat)
    requires t < |e.threads| && e.threads[t].Idle? && p < |e.ports| && e.ports[p].queue != [] && len > 0
    ensures Enabled(e, Receive(t, p, len)) && Enabled(Step(e, Receive(t, p, len)), Continue(t))
    ensures var r := Step(Step(e, Receive(t, p, len)), Continue(t));
      && r.threads[t].Idle?
      && r.log == e.log + [Received(p, e.ports[p].queue[0][..Min(|e.ports[p].queue[0]|, len)], len,
                                    e.ports[p].queue[0])]
  {
  }

  // ------------------------------------------------- a call and its answer

  predicate Calls(a: Action, t: nat) {
    a.t == t && (a.Send? || a.Receive? || a.WaitAny?)
  }

  /** A thread that is in the call, wherever it is in it. */
  predicate InCall(pc: Pc, call: Action) {
    match call
    case Receive(_, p, len) => pc == Drain(p, len) || pc == Block(p, len)
    case WaitAny(_, ps) => pc == Watch(ps) || (pc.Scan? && pc.ports == ps)
    case _ => false
  }

  predicate InACall(pc: Pc) {
    pc.Drain? || pc.Block? || pc.Watch? || pc.Scan?
  }

  /** The call returned with this. */
  predicate Answers(e: Event, call: Action) {
    match call
    case Receive(_, p, len) => e.Received? && e.port == p && e.len == len
    case WaitAny(_, ps) => e.Reported? && e.ports == ps
    case _ => false
  }

  /** Nothing but a new call makes a thread do anything else than what it was called for. */
  lemma StepKeepsCall(s: State, a: Action, t: nat, call: Action)
    requires Enabled(s, a) && t < |s.threads|
    ensures var s' := Step(s, a);
      && |s'.threads| == |s.threads|
      && (InACall(s'.threads[t]) && Calls(a, t) ==> InCall(s'.threads[t], a))
      && (InACall(s'.threads[t]) && !Calls(a, t) ==> InACall(s.threads[t]))
      && (InACall(s'.threads[t]) && !Calls(a, t) && InCall(s.threads[t], call) ==> InCall(s'.threads[t], call))
      && (InCall(s.threads[a.t], call) && |s'.log| > |s.log| ==> Answers(s'.log[|s.log|], call))
      && (|s'.log| > |s.log| ==> InACall(s.threads[a.t]) && s'.threads[a.t].Idle?)
  {
    hide NoLostWakeup, Fifo, EventOk, Delivered;
  }

  /** A thread that is in a call was called so, and has been called for nothing else since. */
  lemma {:induction false} CalledSo(s: State, run: seq<Action>, t: nat) returns (j: nat)
    requires Init(s) && LegalRun(s, run) && t < |After(s, run).threads| && InACall(After(s, run).threads[t])
    ensures j < |run| && Calls(run[j], t) && InCall(After(s, run).threads[t], run[j])
    ensures forall k :: j < k < |run| ==> !Calls(run[k], t)
    decreases |run|
  {
    j := 0;
    if run != [] {
      LastAction(s, run);
      var n := |run| - 1;
      var e := After(s, run[..n]);
      KeepsThreads(e, run[n]);
      hide Step, Enabled, After, InCall, InACall;
      if Calls(run[n], t) {
        StepKeepsCall(e, run[n], t, run[n]);
        j := n;
      } else {
        StepKeepsCall(e, run[n], t, run[n]);
        j := CalledSo(s, run[..n], t);
        StepKeepsCall(e, run[n], t, run[j]);
        assert run[..n][j] == run[j];
        assert forall k :: j < k < n ==> run[..n][k] == run[k];
      }
    }
  }

  lemma KeepsThreads(s: State, a: Action)
    requires Enabled(s, a)
    ensures |Step(s, a).threads| == |s.threads|
  {
  }

  /**
   * In every run, what a call returns is for its own arguments: entry k of the
   * log is made by a step of a thread whose last call was for that port and
   * buffer, or for that list of ports, whatever the other threads did meanwhile
   * and however often it was woken.
   */
  lemma {:induction false} AnswersItsCall(s: State, run: seq<Action>, k: nat) returns (j: nat, n: nat)
    requires Init(s) && LegalRun(s, run) && k < |After(s, run).log|
    ensures j < n < |run| && LegalRun(s, run[..n]) && |After(s, run[..n]).log| == k
    ensures Calls(run[j], run[n].t) && Answers(After(s, run).log[k], run[j])
    ensures forall i :: j < i < n ==> !Calls(run[i], run[n].t)
    decreases |run|
  {
    n := |run| - 1;
    LastAction(s, run);
    var e := After(s, run[..n]);
    LogGrows(e, run[n]);
    EnabledThread(e, run[n]);
    hide Step, Enabled, After, InCall, InACall, Answers, Init;
    if k < |e.log| {
      var m := n;
      j, n := AnswersItsCall(s, run[..m], k);
      assert run[..m][..n] == run[..n] && run[..m][n] == run[n] && run[..m][j] == run[j];
      assert forall i :: j < i < n ==> run[..m][i] == run[i];
    } else {
      StepKeepsCall(e, run[n], run[n].t, run[n]);
      j := CalledSo(s, run[..n], run[n].t);
      StepKeepsCall(e, run[n], run[n].t, run[..n][j]);
      assert run[..n][j] == run[j];
      assert forall i :: j < i < n ==> run[..n][i] == run[i];
    }
  }

  lemma EnabledThread(s: State, a: Action)
    requires Enabled(s, a)
    ensures a.t < |s.threads|
  {
  }

  /** Some sender has triggered port p in the run. */
  predicate Woken(s: State, run: seq<Action>, p: nat)
    requires LegalRun(s, run)
    decreases |run|
  {
    && run != []
    && ((run[0].Continue? && s.threads[run[0].t] == Trigger(p)) || Woken(Step(s, run[0]), run[1..], p))
  }

  lemma TriggerOnly(s: State, a: Action, p: nat)
    requires Enabled(s, a) && p < |s.ports|
    ensures p < |Step(s, a).ports|
    ensures Step(s, a).ports[p].triggered <==> s.ports[p].triggered || (a.Continue? && s.threads[a.t] == Trigger(p))
  {
  }

  lemma {:induction false} TriggeredIffWoken(s: State, run: seq<Action>, p: nat)
    requires LegalRun(s, run) && p < |s.ports|
    ensures p < |After(s, run).ports|
    ensures After(s, run).ports[p].triggered <==> s.ports[p].triggered || Woken(s, run, p)
    decreases |run|
  {
    if run != [] {
      TriggerOnly(s, run[0], p);
      hide Step, Enabled;
      TriggeredIffWoken(Step(s, run[0]), run[1..], p);
    }
  }

  /**
   * The trigger is never taken back. A receiver that found port p empty is
   * woken exactly if some sender has ever triggered it, however long ago its
   * messages were taken; and then it looks, finds nothing, and is back where
   * it was: it does not sleep but spins.
   */
  lemma BlockedReceiverSpins(s: State, run: seq<Action>, t: nat)
    requires Init(s) && LegalRun(s, run)
    requires t < |After(s, run).threads| && After(s, run).threads[t].Block?
    ensures var e := After(s, run);
      var p := e.threads[t].port;
      && p < |e.ports|
      && (Enabled(e, Continue(t)) <==> Woken(s, run, p))
      && (Enabled(e, Continue(t)) && e.ports[p].queue == [] ==>
            var looks := Step(e, Continue(t));
            Enabled(looks, Continue(t)) && Step(looks, Continue(t)) == e)
  {
    RunKeepsInv(s, run);
    RunGrows(s, run);
    var e := After(s, run);
    var p := e.threads[t].port;
    assert OnPorts(e, e.threads[t]);
    TriggeredIffWoken(s, run, p);
    assert !s.ports[p].triggered;
    hide Inv, After, LegalRun, Woken;
    if Enabled(e, Continue(t)) && e.ports[p].queue == [] {
      var looks := Step(e, Continue(t));
      assert Step(looks, Continue(t)).threads == e.threads;
    }
  }

  // -------------------------------------------------------- one port's entry

  /** A rights mask, as the set of its bits; the four rights are one bit each. */
  type Mask = set<nat>

  const RIGHTS: set<Mask> := {{0}, {1}, {2}, {3}}

  /** What the grants so far give to a name: nothing if it was never named, else the union. */
  function Granted(grants: seq<(int, Mask)>, name: int): Option<Mask> {
    if grants == [] then None
    else
      var before := Granted(grants[..|grants| - 1], name);
      var last := grants[|grants| - 1];
      if last.0 != name then before
      else Some((if before.Some? then before.value else {}) + last.1)
  }

  /** A bit is held by a name exactly when some grant to that name contained it. */
  lemma {:induction false} GrantedBits(grants: seq<(int, Mask)>, name: int, bit: nat)
    ensures (Granted(grants, name).Some? && bit in Granted(grants, name).value)
            <==> exists k :: 0 <= k < |grants| && grants[k].0 == name && bit in grants[k].1
    ensures Granted(grants, name).Some? <==> exists k :: 0 <= k < |grants| && grants[k].0 == name
  {
    if grants != [] {
      var n := |grants| - 1;
      GrantedBits(grants[..n], name, bit);
      assert forall k :: 0 <= k < n ==> grants[..n][k] == grants[k];
      if k :| 0 <= k < |grants| && grants[k].0 == name && bit in grants[k].1 && k < n {
        assert grants[..n][k].0 == name;
      }
      if k :| 0 <= k < |grants| && grants[k].0 == name && k < n {
        assert grants[..n][k].0 == name;
      }
    }
  }

  ghost predicate Kept(rights: map<int, Mask>, grants: seq<(int, Mask)>) {
    forall name {:trigger Granted(grants, name)} ::
      Granted(grants, name) == if name in rights then Some(rights[name]) else None
  }

  lemma KeptGrant(rights: map<int, Mask>, grants: seq<(int, Mask)>, name: int, right: Mask)
    requires Kept(rights, grants)
    ensures Kept(rights[name := (if name in rights then rights[name] else {}) + right], grants + [(name, right)])
  {
    var grants' := grants + [(name, right)];
    assert grants'[..|grants|] == grants;
    forall n
      ensures Granted(grants', n) == if n == name then Some((if n in rights then rights[n] else {}) + right)
                                     else if n in rights then Some(rights[n]) else None
    {
      assert Granted(grants, n) == if n in rights then Some(rights[n]) else None;
    }
  }

  /** The registry's entry for one port: its message list and the rights granted against it. */
  class PortEntry {
    var msgHead: Node?<Bytes>
    var msgTail: Node?<Bytes>
    var rights: map<int, Mask>
    ghost var messages: seq<Node<Bytes>>
    ghost var grants: seq<(int, Mask)>

    ghost predicate Valid()
      reads this, messages
    {
      && Chain(messages) && msgHead == First(messages) && msgTail == Last(messages)
      && Kept(rights, grants)
    }

    ghost function Queue(): seq<Bytes>
      reads this, messages
    {
      Items(messages)
    }

    constructor ()
      ensures Valid() && Queue() == [] && grants == []
    {
      msgHead, msgTail, rights := null, null, map[];
      messages, grants := [], [];
    }

    /** The locked section of mach_msg_send. */
    method Enqueue(message: Bytes)
      requires Valid()
      modifies this, messages
      ensures Valid() && Queue() == old(Queue()) + [message] && grants == old(grants)
    {
      var node := new Node<Bytes>(message);
      if msgTail != null {
        msgTail.next := node;
      } else {
        msgHead := node;
      }
      msgTail := node;
      messages := messages + [node];
    }

    /** port_entry_dequeue. */
    method Dequeue() returns (r: Option<Bytes>)
      requires Valid()
      modifies this
      ensures Valid() && grants == old(grants)
      ensures r == if old(Queue()) == [] then None else Some(old(Queue())[0])
      ensures Queue() == if old(Queue()) == [] then [] else old(Queue())[1..]
    {
      var node := msgHead;
      if node == null {
        return None;
      }
      msgHead := node.next;
      if msgHead == null {
        msgTail := null;
      }
      r := Some(node.item);
      ghost var was := messages;
      messages := messages[1..];
      assert forall j :: 0 <= j < |messages| ==> messages[j] == was[j + 1];
    }

    /** mach_port_insert_right on a live port: 0 or KERN_INVALID_ARGUMENT. */
    method InsertRight(name: int, right: Mask) returns (ok: bool)
      requires Valid()
      modifies this
      ensures Valid() && Queue() == old(Queue())
      ensures ok <==> right in RIGHTS
      ensures grants == if ok then old(grants) + [(name, right)] else old(grants)
    {
      if right !in RIGHTS {
        return false;
      }
      KeptGrant(rights, grants, name, right);
      var held := if name in rights then rights[name] else {};
      rights := rights[name := held + right];
      grants := grants + [(name, right)];
      ok := true;
    }

    /** mach_port_has_right: the name was granted something, and every asked-for bit. */
    method HasRight(name: int, right: Mask) returns (has: bool)
      requires Valid()
      ensures has <==> Granted(grants, name).Some? && right <= Granted(grants, name).value
    {
      has := name in rights && right <= rights[name];
    }
  }
}
