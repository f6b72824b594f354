/**
 * The control endpoint of launchd: one request is dispatched on its verb, acts
 * on the registry and is answered with a code.
 */
module LaunchControl {
  import opened Common
  import opened LaunchHistory
  import opened LaunchSystem
  import opened LaunchTracking
  import opened LaunchTable
  import opened LaunchJobs
  import opened XpcWire
  import opened XpcRoundTrip

  const CODE_OK := 0             // LCTL_OK
  const NOTFOUND := -1
  const ALREADY := -2
  const BADVERB := -3
  const BADARG := -4
  const INTERNAL := -5
  const PLIST := -6

  const VERBS := ["list", "status", "load", "unload", "start", "stop"]

  /** catbsd_xpc_dictionary_get_string; None for NULL, and for the empty string, which callers treat alike. */
  function Argument(m: Message, key: string): Option<string> {
    var i := IndexOf(m.entries, Ascii(key));
    if i < |m.entries| && m.entries[i].value.Str? && CString(m.entries[i].value.text) != []
    then Some(Text(CString(m.entries[i].value.text)))
    else None
  }

  /** What reading and parsing the file at a path gives. */
  function ReadJob(disk: map<string, Parsed>, path: string): Parsed {
    if path in disk then disk[path] else Bad(EPARSE)
  }

  predicate Named(cs: seq<Card>, name: string) {
    exists i :: 0 <= i < |cs| && cs[i].spec.name == name
  }

  predicate InState(cs: seq<Card>, name: string, state: JobState) {
    exists i :: 0 <= i < |cs| && cs[i].spec.name == name && cs[i].status.state == state
  }

  /** Every other job is as it was. */
  predicate OthersSame(was: seq<Card>, now: seq<Card>, name: string) {
    |was| == |now| && forall i {:trigger now[i]} :: 0 <= i < |was| ==> was[i].spec.name != name ==> now[i] == was[i]
  }

  predicate LoadAnswer(path: Option<string>, disk: map<string, Parsed>, was: seq<Card>, now: seq<Card>, code: int) {
    if path == None then code == BADARG && now == was
    else
      var parsed := ReadJob(disk, path.value);
      if parsed.Bad? || Named(was, parsed.spec.name) then code == PLIST && now == was
      else
        && code == CODE_OK && |now| == |was| + 1 && was <= now
        && now[|was|] == Card(now[|was|].number, parsed.spec, FRESH)
  }

  predicate UnloadAnswer(name: Option<string>, was: seq<Card>, now: seq<Card>, code: int) {
    if name == None then code == BADARG && now == was
    else if !Named(was, name.value) then code == NOTFOUND && now == was
    else code == CODE_OK && exists i :: 0 <= i < |was| && was[i].spec.name == name.value && now == Omit(was, i)
  }

  predicate StartAnswer(name: Option<string>, was: seq<Card>, now: seq<Card>, code: int) {
    if name == None then code == BADARG && now == was
    else if !Named(was, name.value) then code == NOTFOUND && now == was
    else if InState(was, name.value, RUNNING) then code == ALREADY && now == was
    else
      && OthersSame(was, now, name.value)
      && code in {CODE_OK, INTERNAL} && InState(now, name.value, if code == CODE_OK then RUNNING else FAILED)
  }

  predicate StopAnswer(name: Option<string>, was: seq<Card>, now: seq<Card>, code: int) {
    if name == None then code == BADARG && now == was
    else if !Named(was, name.value) then code == NOTFOUND && now == was
    else if InState(was, name.value, STOPPED) then code == ALREADY && now == was
    else OthersSame(was, now, name.value) && code == CODE_OK && InState(now, name.value, STOPPED)
  }

  predicate StatusAnswer(name: Option<string>, was: seq<Card>, now: seq<Card>, code: int) {
    now == was && code == if name == None then BADARG else if Named(was, name.value) then CODE_OK else NOTFOUND
  }

  /** How a request is answered, and what it does to the jobs. */
  predicate Answer(req: Message, disk: map<string, Parsed>, was: seq<Card>, now: seq<Card>, code: int) {
    match Argument(req, "verb")
    case None => code == BADVERB && now == was
    case Some(verb) =>
      if verb == "list" then code == CODE_OK && now == was
      else if verb == "status" then StatusAnswer(Argument(req, "label"), was, now, code)
      else if verb == "load" then LoadAnswer(Argument(req, "path"), disk, was, now, code)
      else if verb == "unload" then UnloadAnswer(Argument(req, "label"), was, now, code)
      else if verb == "start" then StartAnswer(Argument(req, "label"), was, now, code)
      else if verb == "stop" then StopAnswer(Argument(req, "label"), was, now, code)
      else code == BADVERB && now == was
  }

  /** An event a control request brings about. */
  predicate ByRequest(e: Event) {
    match e
    case Load(_, _) => true
    case Start(_, cause, _, _) => cause == Operator
    case StartFailed(_, cause) => cause == Operator
    case Stop(_, _) => true
    case Unload(_) => true
    case Reap(_, _, _) => false
  }

  /** What a request added to the history. */
  predicate Served(was: History, now: History) {
    was <= now && forall k :: |was| <= k < |now| ==> ByRequest(now[k])
  }

  lemma NothingServed(h: History)
    ensures Served(h, h)
  {
  }

  lemma ServedOne(h: History, e: Event)
    requires ByRequest(e)
    ensures Served(h, h + [e])
  {
  }

  lemma ServedUnload(h: History, job: nat, exit: Option<Exit>)
    ensures Served(h, h + UnloadEvents(job, exit))
  {
  }

  /** How many jobs have the label. */
  function Occurrences(cs: seq<Card>, name: string): nat {
    if cs == [] then 0 else (if cs[0].spec.name == name then 1 else 0) + Occurrences(cs[1..], name)
  }

  lemma {:induction false} AtMostOnce(cs: seq<Card>, name: string)
    requires DistinctNames(cs)
    ensures Occurrences(cs, name) == if Named(cs, name) then 1 else 0
  {
    if cs != [] {
      var rest := cs[1..];
      AtMostOnce(rest, name);
      if Named(rest, name) {
        var i :| 0 <= i < |rest| && rest[i].spec.name == name;
        assert cs[i + 1].spec.name == name;
      }
      if i :| 0 <= i < |cs| && cs[i].spec.name == name && i > 0 {
        assert rest[i - 1].spec.name == name;
      }
    }
  }

  /**
   * Code 0 means what the verb asked for is now so: the label is there once,
   * is gone, is RUNNING, is STOPPED. An error other than INTERNAL changed nothing.
   */
  lemma CodesMeanWhatTheySay(req: Message, disk: map<string, Parsed>, was: seq<Card>, now: seq<Card>, code: int)
    requires Answer(req, disk, was, now, code) && DistinctNames(was) && DistinctNames(now)
    ensures code in {NOTFOUND, ALREADY, BADVERB, BADARG, PLIST} ==> now == was
    ensures var verb, name := Argument(req, "verb"), Argument(req, "label");
      code == CODE_OK ==>
        && verb.Some?
        && (verb.value == "load" ==>
              var spec := ReadJob(disk, Argument(req, "path").value).spec;
              Occurrences(now, spec.name) == 1 && Occurrences(was, spec.name) == 0 && InState(now, spec.name, LOADED))
        && (verb.value == "unload" ==> Occurrences(was, name.value) == 1 && Occurrences(now, name.value) == 0)
        && (verb.value == "start" ==> InState(now, name.value, RUNNING) && !InState(was, name.value, RUNNING))
        && (verb.value == "stop" ==> InState(now, name.value, STOPPED))
  {
    forall name
      ensures Occurrences(was, name) == if Named(was, name) then 1 else 0
      ensures Occurrences(now, name) == if Named(now, name) then 1 else 0
    {
      AtMostOnce(was, name);
      AtMostOnce(now, name);
    }
    hide Occurrences;
  }

  /** What the i-th handler of the table does. */
  predicate ActsAs(i: nat, req: Message, disk: map<string, Parsed>, was: seq<Card>, now: seq<Card>, code: int) {
    match i
    case 0 => code == CODE_OK && now == was
    case 1 => StatusAnswer(Argument(req, "label"), was, now, code)
    case 2 => LoadAnswer(Argument(req, "path"), disk, was, now, code)
    case 3 => UnloadAnswer(Argument(req, "label"), was, now, code)
    case 4 => StartAnswer(Argument(req, "label"), was, now, code)
    case 5 => StopAnswer(Argument(req, "label"), was, now, code)
    case _ => code == BADVERB && now == was
  }

  lemma Routed(i: nat, req: Message, verb: string, disk: map<string, Parsed>, was: seq<Card>, now: seq<Card>,
               code: int)
    requires Argument(req, "verb") == Some(verb) && ActsAs(i, req, disk, was, now, code)
    requires i <= |VERBS| && (i < |VERBS| ==> verb == VERBS[i]) && (i == |VERBS| ==> verb !in VERBS)
    ensures Answer(req, disk, was, now, code)
  {
    hide Argument, LoadAnswer, UnloadAnswer, StartAnswer, StopAnswer, StatusAnswer;
    assert VERBS[0] == "list" && VERBS[1] == "status" && VERBS[2] == "load";
    assert VERBS[3] == "unload" && VERBS[4] == "start" && VERBS[5] == "stop";
  }

  // ---------------------------------------------------------------- handlers

  const XPC_SUCCESS := 0
  const XPC_EIO := -3
  const XPC_EPROTO := -6

  /** A reply's frame is within the 1 MiB the connection transmits. */
  predicate Fits(m: Message) {
    HEADER_SIZE + PayloadSize(m.entries) <= MAX_MESSAGE
  }

  predicate LastFits(replies: seq<Message>) {
    replies != [] && Fits(replies[|replies| - 1])
  }

  /** One client's connection, and the replies that were handed to it. */
  class Peer {
    var replies: seq<Message>
    var cancelled: bool

    constructor ()
      ensures replies == [] && !cancelled
    {
      replies, cancelled := [], false;
    }

    /** catbsd_xpc_connection_reply: a frame that is too long is not sent, and a write may fail. */
    method Reply(request: Message, entries: seq<Entry>) returns (rc: int)
      requires !cancelled
      modifies `replies
      ensures replies == old(replies) + [Message(entries, request.id, true)]
      ensures rc == XPC_EPROTO <==> !Fits(Message(entries, request.id, true))
    {
      replies := replies + [Message(entries, request.id, true)];
      var written: bool := *;
      rc := if !Fits(Message(entries, request.id, true)) then XPC_EPROTO else if written then XPC_SUCCESS else XPC_EIO;
    }

    /** reply_err; reply_ok is code 0 and no text. Error texts are cut to their buffers. */
    method ReplyErr(request: Message, code: int, text: string)
      requires !cancelled && |text| < 512
      modifies `replies
      ensures RepliedOnce(old(replies), replies, request, code) && LastFits(replies)
    {
      var rep := SetEntry([], Entry(Ascii("code"), Int64(code)));
      rep := SetEntry(rep, Entry(Ascii("error"), Str(Ascii(text))));
      CodeIsNotError();
      CodeFirst(code, rep[1..], request.id);
      ErrorSize(rep, code, Ascii(text));
      var rc := Reply(request, rep);
    }
  }

  lemma ErrorSize(rep: seq<Entry>, code: int, text: seq<Byte>)
    requires rep == [Entry(Ascii("code"), Int64(code)), Entry(Ascii("error"), Str(text))]
    ensures PayloadSize(rep) == 27 + |text|
  {
    assert rep[1..] == [rep[1]] && rep[1..][1..] == [];
    assert PayloadSize(rep) == EntrySize(rep[0]) + (EntrySize(rep[1]) + PayloadSize([]));
  }

  lemma TableSize(rep: seq<Entry>, table: seq<Byte>)
    requires rep == [Entry(Ascii("code"), Int64(CODE_OK)), Entry(Ascii("error"), Str([])),
                     Entry(Ascii("jobs"), Str(table))]
    ensures PayloadSize(rep) == 38 + |table|
  {
    assert rep[1..][1..] == [rep[2]] && [rep[2]][1..] == [];
    assert PayloadSize(rep) == EntrySize(rep[0]) + PayloadSize(rep[1..]);
    assert PayloadSize(rep[1..]) == EntrySize(rep[1]) + PayloadSize([rep[2]]);
    assert PayloadSize([rep[2]]) == EntrySize(rep[2]) + PayloadSize([]);
  }

  lemma CodeIsNotError()
    ensures Ascii("code")[0] != Ascii("error")[0] && Ascii("code") != Ascii("error")
  {
  }

  /** The code of a reply. */
  function CodeOf(m: Message): Option<int> {
    var i := IndexOf(m.entries, Ascii("code"));
    if i < |m.entries| && m.entries[i].value.Int64? then Some(m.entries[i].value.i) else None
  }

  /** Exactly one reply was sent, it carries the request's id, and this code. */
  predicate RepliedOnce(was: seq<Message>, now: seq<Message>, request: Message, code: int) {
    && |now| == |was| + 1 && was <= now
    && now[|was|].id == request.id && now[|was|].isReply && CodeOf(now[|was|]) == Some(code)
  }

  lemma CodeFirst(code: int, rest: seq<Entry>, id: nat)
    ensures CodeOf(Message([Entry(Ascii("code"), Int64(code))] + rest, id, true)) == Some(code)
  {
  }

  lemma StartRefused(name: Option<string>, cs: seq<Card>, code: int)
    requires if name == None then code == BADARG
             else if !Named(cs, name.value) then code == NOTFOUND
             else InState(cs, name.value, RUNNING) && code == ALREADY
    ensures StartAnswer(name, cs, cs, code)
  {
  }

  lemma StartDone(was: seq<Card>, now: seq<Card>, i: nat, code: int)
    requires i < |was| && DistinctNumbers(was) && DistinctNames(was) && Only(was, now, was[i].number)
    requires was[i].status.state != RUNNING && code in {CODE_OK, INTERNAL}
    requires now[i].status.state == if code == CODE_OK then RUNNING else FAILED
    ensures StartAnswer(Some(was[i].spec.name), was, now, code)
  {
    assert now[i].spec.name == was[i].spec.name;
  }

  /** The calls ended the child of the labelled job, with that much grace. */
  ghost predicate GivesGrace(calls: seq<Call>, name: Option<string>, cs: seq<Card>, timeout: int) {
    exists i, exit ::
      0 <= i < |cs| && Some(cs[i].spec.name) == name && Ends(calls, cs[i].status.pid, timeout, exit)
  }

  lemma GraceGiven(calls: seq<Call>, cs: seq<Card>, i: nat, timeout: int, exit: Exit)
    requires i < |cs| && Ends(calls, cs[i].status.pid, timeout, exit)
    ensures GivesGrace(calls, Some(cs[i].spec.name), cs, timeout)
  {
  }

  lemma StopRefused(name: Option<string>, cs: seq<Card>, code: int)
    requires if name == None then code == BADARG
             else if !Named(cs, name.value) then code == NOTFOUND
             else InState(cs, name.value, STOPPED) && code == ALREADY
    ensures StopAnswer(name, cs, cs, code)
  {
  }

  lemma StopDone(was: seq<Card>, now: seq<Card>, i: nat)
    requires i < |was| && DistinctNumbers(was) && DistinctNames(was) && Only(was, now, was[i].number)
    requires was[i].status.state != STOPPED && now[i].status.state == STOPPED
    ensures StopAnswer(Some(was[i].spec.name), was, now, CODE_OK)
  {
    assert now[i].spec.name == was[i].spec.name;
  }

  lemma UnloadRefused(name: Option<string>, cs: seq<Card>, code: int)
    requires if name == None then code == BADARG else !Named(cs, name.value) && code == NOTFOUND
    ensures UnloadAnswer(name, cs, cs, code)
  {
  }

  lemma UnloadDone(was: seq<Card>, i: nat)
    requires i < |was|
    ensures UnloadAnswer(Some(was[i].spec.name), was, Omit(was, i), CODE_OK)
  {
    hide Omit;
    assert Named(was, was[i].spec.name);
  }

  lemma LoadRefused(path: Option<string>, disk: map<string, Parsed>, cs: seq<Card>, code: int)
    requires if path == None then code == BADARG
             else code == PLIST && (ReadJob(disk, path.value).Bad? || Named(cs, ReadJob(disk, path.value).spec.name))
    ensures LoadAnswer(path, disk, cs, cs, code)
  {
  }

  lemma LoadDone(path: string, disk: map<string, Parsed>, cs: seq<Card>, number: nat)
    requires ReadJob(disk, path).Good? && !Named(cs, ReadJob(disk, path).spec.name)
    ensures LoadAnswer(Some(path), disk, cs, cs + [Card(number, ReadJob(disk, path).spec, FRESH)], CODE_OK)
  {
  }

  /** What the status verb reports of a job. */
  function StatusEntries(name: seq<Byte>, s: Status): seq<Entry> {
    [Entry(Ascii("code"), Int64(CODE_OK)), Entry(Ascii("error"), Str([])), Entry(Ascii("label"), Str(name)),
     Entry(Ascii("state"), Str(Ascii(StateName(s.state)))), Entry(Ascii("pid"), Int64(if s.pid > 0 then s.pid else -1)),
     Entry(Ascii("starts"), Uint64(s.startCount)), Entry(Ascii("exit"), Int64(s.lastExit))]
  }

  predicate Holds(es: seq<Entry>, key: string, v: Value) {
    ValueOf(es, Ascii(key)) == Some(v)
  }

  lemma HoldsAt(es: seq<Entry>, keys: seq<string>)
    requires |es| == |keys| && forall i :: 0 <= i < |es| ==> es[i].key == Ascii(keys[i])
    requires forall i, j :: 0 <= i < j < |keys| ==> Ascii(keys[i]) != Ascii(keys[j])
    ensures forall i :: 0 <= i < |es| ==> Holds(es, keys[i], es[i].value)
  {
    hide Ascii;
    forall i | 0 <= i < |es| ensures Holds(es, keys[i], es[i].value) {
      assert IndexOf(es, es[i].key) == i;
    }
  }

  const STATUS_KEYS := ["code", "error", "label", "state", "pid", "starts", "exit"]

  lemma StatusKeysDiffer()
    ensures forall i, j :: 0 <= i < j < |STATUS_KEYS| ==> Ascii(STATUS_KEYS[i]) != Ascii(STATUS_KEYS[j])
  {
    var keys := STATUS_KEYS;
    forall i, j | 0 <= i < j < |keys| ensures Ascii(keys[i]) != Ascii(keys[j]) {
      assert |keys[i]| != |keys[j]| || keys[i][0] != keys[j][0];
      assert |Ascii(keys[i])| == |keys[i]| && |Ascii(keys[j])| == |keys[j]|;
    }
  }

  lemma StatusKeys(name: seq<Byte>, s: Status)
    ensures var es := StatusEntries(name, s);
      |es| == |STATUS_KEYS| && forall i :: 0 <= i < |es| ==> es[i].key == Ascii(STATUS_KEYS[i])
  {
    hide Ascii;
  }

  lemma StatusValues(name: seq<Byte>, s: Status)
    ensures var es := StatusEntries(name, s);
      && |es| == 7 && es[0].value == Int64(0) && es[1].value == Str([]) && es[2].value == Str(name)
      && es[3].value == Str(Ascii(StateName(s.state))) && es[4].value == Int64(if s.pid > 0 then s.pid else -1)
      && es[5].value == Uint64(s.startCount) && es[6].value == Int64(s.lastExit)
  {
    hide Ascii, StateName;
  }

  /** The state is said in so many words. */
  lemma StateSaid(s: JobState)
    ensures var said := Ascii(StateName(s));
      && (s == LOADED <==> said == Ascii("loaded")) && (s == RUNNING <==> said == Ascii("running"))
      && (s == EXITED <==> said == Ascii("exited")) && (s == WAITING <==> said == Ascii("waiting"))
      && (s == STOPPED <==> said == Ascii("stopped")) && (s == FAILED <==> said == Ascii("failed"))
  {
    var said := Ascii(StateName(s));
    assert said[0] == StateName(s)[0] as int && |said| == |StateName(s)|;
    assert Ascii("loaded")[0] == 'l' as int && Ascii("running")[0] == 'r' as int && Ascii("exited")[0] == 'e' as int;
    assert Ascii("waiting")[0] == 'w' as int && Ascii("stopped")[0] == 's' as int && Ascii("failed")[0] == 'f' as int;
  }

  /** What a client finds in the reply under each key. */
  lemma StatusReads(name: seq<Byte>, s: Status)
    ensures var es := StatusEntries(name, s);
      && Holds(es, "code", Int64(0)) && Holds(es, "error", Str([])) && Holds(es, "label", Str(name))
      && (s.state == RUNNING <==> Holds(es, "state", Str(Ascii("running"))))
      && Holds(es, "state", Str(Ascii(StateName(s.state))))
      && Holds(es, "pid", Int64(if s.pid > 0 then s.pid else -1))
      && Holds(es, "starts", Uint64(s.startCount)) && Holds(es, "exit", Int64(s.lastExit))
  {
    StatusKeysDiffer();
    StatusKeys(name, s);
    StatusValues(name, s);
    StateSaid(s.state);
    var es := StatusEntries(name, s);
    hide Ascii, StatusEntries, StateName;
    HoldsAt(es, STATUS_KEYS);
    assert STATUS_KEYS[0] == "code" && STATUS_KEYS[1] == "error" && STATUS_KEYS[2] == "label";
    assert STATUS_KEYS[3] == "state" && STATUS_KEYS[4] == "pid" && STATUS_KEYS[5] == "starts";
    assert STATUS_KEYS[6] == "exit";
  }

  /** A status reply can be sent exactly when label and state leave room for the rest. */
  lemma StatusSize(name: seq<Byte>, s: Status, id: nat)
    ensures Fits(Message(StatusEntries(name, s), id, true)) <==>
      |name| + |StateName(s.state)| <= MAX_MESSAGE - HEADER_SIZE - 97
  {
    hide StateName, PayloadSize;
    SevenEntries(StatusEntries(name, s));
  }

  lemma SevenEntries(es: seq<Entry>)
    requires |es| == 7
    ensures PayloadSize(es) == EntrySize(es[0]) + EntrySize(es[1]) + EntrySize(es[2]) + EntrySize(es[3])
      + EntrySize(es[4]) + EntrySize(es[5]) + EntrySize(es[6])
  {
    hide EntrySize;
    assert es[1..][1..] == es[2..] && es[2..][1..] == es[3..] && es[3..][1..] == es[4..];
    assert es[4..][1..] == es[5..] && es[5..][1..] == es[6..] && es[6..][1..] == [];
    assert PayloadSize(es[6..]) == EntrySize(es[6]) + PayloadSize([]);
    assert PayloadSize(es[4..]) == EntrySize(es[4]) + (EntrySize(es[5]) + PayloadSize(es[6..]));
    assert PayloadSize(es[2..]) == EntrySize(es[2]) + (EntrySize(es[3]) + PayloadSize(es[4..]));
    assert PayloadSize(es) == EntrySize(es[0]) + (EntrySize(es[1]) + PayloadSize(es[2..]));
  }

  /** The label is a job's, and leaves no room for the rest of its status. */
  predicate LongLabel(name: Option<string>, cs: seq<Card>) {
    name.Some? && exists i ::
      0 <= i < |cs| && cs[i].spec.name == name.value &&
      |name.value| + |StateName(cs[i].status.state)| > MAX_MESSAGE - HEADER_SIZE - 97
  }

  /** A request whose reply is too long to be transmitted. */
  predicate Unanswerable(req: Message, cs: seq<Card>) {
    Argument(req, "verb") == Some("status") && LongLabel(Argument(req, "label"), cs)
  }

  lemma OnlyStatusIsLong(i: nat, req: Message, verb: string, cs: seq<Card>)
    requires Argument(req, "verb") == Some(verb)
    requires i <= |VERBS| && (i < |VERBS| ==> verb == VERBS[i]) && (i == |VERBS| ==> verb !in VERBS)
    ensures Unanswerable(req, cs) <==> i == 1 && LongLabel(Argument(req, "label"), cs)
  {
    hide Argument, LongLabel;
    assert VERBS[0] == "list" && VERBS[1] == "status" && VERBS[2] == "load";
    assert VERBS[3] == "unload" && VERBS[4] == "start" && VERBS[5] == "stop";
  }

  lemma LongLabelAt(cs: seq<Card>, i: nat)
    requires i < |cs| && DistinctNames(cs)
    ensures LongLabel(Some(cs[i].spec.name), cs) <==>
      |cs[i].spec.name| + |StateName(cs[i].status.state)| > MAX_MESSAGE - HEADER_SIZE - 97
  {
    hide StateName;
  }

  lemma NoLongLabel(name: Option<string>, cs: seq<Card>)
    requires name == None || !Named(cs, name.value)
    ensures !LongLabel(name, cs)
  {
  }

  function StatusRequest(name: seq<Byte>, id: nat): Message {
    Message([Entry(Ascii("verb"), Str(Ascii("status"))), Entry(Ascii("label"), Str(name))], id, false)
  }

  /** There is such a request: it is within 1 MiB itself, and the reply it asks for is not. */
  lemma UnansweredStatus(name: seq<Byte>, c: Card, id: nat)
    requires |name| == MAX_MESSAGE - HEADER_SIZE - 97 && NulFree(name) && c.spec.name == Text(name)
    ensures Fits(StatusRequest(name, id)) && Unanswerable(StatusRequest(name, id), [c])
    ensures !Fits(Message(StatusEntries(name, c.status), id, true))
  {
    hide Argument, PayloadSize, StatusEntries, StatusRequest, Fits, NulFree;
    StatusSize(name, c.status, id);
    StatusRequestReads(name, id);
    StatusRequestFits(name, id);
    assert |StateName(c.status.state)| > 0;
    assert [c][0].spec.name == Text(name);
  }

  lemma StatusRequestFits(name: seq<Byte>, id: nat)
    requires |name| <= MAX_MESSAGE - HEADER_SIZE - 29
    ensures Fits(StatusRequest(name, id))
  {
    hide PayloadSize;
    TwoEntries(StatusRequest(name, id).entries);
  }

  lemma TwoEntries(es: seq<Entry>)
    requires |es| == 2
    ensures PayloadSize(es) == EntrySize(es[0]) + EntrySize(es[1])
  {
    hide EntrySize;
    assert es[1..][1..] == [];
    assert PayloadSize(es) == EntrySize(es[0]) + (EntrySize(es[1]) + PayloadSize([]));
  }

  lemma StatusRequestReads(name: seq<Byte>, id: nat)
    requires name != [] && NulFree(name)
    ensures Argument(StatusRequest(name, id), "verb") == Some("status")
    ensures Argument(StatusRequest(name, id), "label") == Some(Text(name))
  {
    var es := StatusRequest(name, id).entries;
    assert Ascii("verb")[0] != Ascii("label")[0];
    assert IndexOf(es, Ascii("verb")) == 0 && IndexOf(es, Ascii("label")) == 1;
    hide Argument, IndexOf, CString, Ascii;
    StatusText();
    StringArgument(StatusRequest(name, id), "verb", 0, Ascii("status"));
    StringArgument(StatusRequest(name, id), "label", 1, name);
  }

  lemma StatusText()
    ensures Ascii("status") != [] && NulFree(Ascii("status")) && Text(Ascii("status")) == "status"
  {
  }

  lemma StringArgument(m: Message, key: string, i: nat, text: seq<Byte>)
    requires i < |m.entries| && IndexOf(m.entries, Ascii(key)) == i
    requires m.entries[i].value == Str(text) && text != [] && NulFree(text)
    ensures Argument(m, key) == Some(Text(text))
  {
    hide IndexOf, Ascii;
  }

  function ListReply(text: string): seq<Entry> {
    [Entry(Ascii("code"), Int64(CODE_OK)), Entry(Ascii("error"), Str([])), Entry(Ascii("jobs"), Str(Ascii(text)))]
  }

  /** What the list verb reports. */
  function ListEntries(cs: seq<Card>): seq<Entry> {
    ListReply(Cut(Table(cs)))
  }

  lemma ListFirst(cs: seq<Card>, id: nat)
    ensures CodeOf(Message(ListEntries(cs), id, true)) == Some(CODE_OK) && Fits(Message(ListEntries(cs), id, true))
    ensures ListEntries(cs) == ListReply(Cut(Table(cs)))
  {
    hide Table, PayloadSize;
    var es := ListEntries(cs);
    CodeFirst(CODE_OK, es[1..], id);
    assert es == [Entry(Ascii("code"), Int64(CODE_OK))] + es[1..];
    TableSize(es, Ascii(Cut(Table(cs))));
  }

  lemma StatusFirst(name: seq<Byte>, s: Status, id: nat)
    ensures CodeOf(Message(StatusEntries(name, s), id, true)) == Some(CODE_OK)
  {
    CodeFirst(CODE_OK, StatusEntries(name, s)[1..], id);
    assert StatusEntries(name, s) == [Entry(Ascii("code"), Int64(CODE_OK))] + StatusEntries(name, s)[1..];
  }

  /** launch_registry_find sees what the cards say. */
  lemma NamedIff(jobs: seq<Job>, name: string)
    ensures Named(Cards(jobs), name) <==> HasName(jobs, name)
  {
    hide Cards;
    if Named(Cards(jobs), name) {
      var i :| 0 <= i < |jobs| && Cards(jobs)[i].spec.name == name;
      assert jobs[i].spec.name == name;
    }
    if HasName(jobs, name) {
      var i :| 0 <= i < |jobs| && jobs[i].spec.name == name;
      assert Cards(jobs)[i].spec.name == name;
    }
  }

  class Server {
    const reg: Registry

    constructor (reg: Registry)
      ensures this.reg == reg
    {
      this.reg := reg;
    }

    /** handle_start. */
    method HandleStart(peer: Peer, req: Message) returns (ghost code: int)
      requires reg.Valid() && !peer.cancelled
      modifies peer`replies, reg`history, reg.jobs, reg.os`procs, reg.os`clock
      ensures reg.Valid() && RepliedOnce(old(peer.replies), peer.replies, req, code) && LastFits(peer.replies)
      ensures StartAnswer(Argument(req, "label"), old(Cards(reg.jobs)), Cards(reg.jobs), code)
      ensures code !in {CODE_OK, INTERNAL} ==> reg.history == old(reg.history)
      ensures Served(old(reg.history), reg.history)
    {
      hide Served, Registry.Valid, Cards, Only, Argument, Named, StartAnswer, DistinctNumbers, DistinctNames, LastFits,
        RepliedOnce;
      ghost var cards := Cards(reg.jobs);
      NothingServed(reg.history);
      var name := Argument(req, "label");
      if name == None {
        code := BADARG;
        StartRefused(name, cards, code);
        peer.ReplyErr(req, BADARG, "missing 'label'");
        return;
      }
      NamedIff(reg.jobs, name.value);
      reg.CardsApart();
      var j, i := reg.Find(name.value);
      if j == null {
        code := NOTFOUND;
        StartRefused(name, cards, code);
        peer.ReplyErr(req, NOTFOUND, "no such job");
        return;
      }
      if j.state == RUNNING {
        code := ALREADY;
        assert cards[i].status.state == RUNNING;
        StartRefused(name, cards, code);
        peer.ReplyErr(req, ALREADY, "job is already running");
        return;
      }
      code := StartFound(peer, req, j, i);
    }

    /** The rest of it, for a job that is not running. */
    method StartFound(peer: Peer, req: Message, j: Job, ghost i: nat) returns (ghost code: int)
      requires reg.Valid() && !peer.cancelled && i < |reg.jobs| && reg.jobs[i] == j && j.state != RUNNING
      modifies peer`replies, reg`history, reg.jobs, reg.os`procs, reg.os`clock
      ensures reg.Valid() && RepliedOnce(old(peer.replies), peer.replies, req, code) && LastFits(peer.replies)
      ensures StartAnswer(Some(j.spec.name), old(Cards(reg.jobs)), Cards(reg.jobs), code)
      ensures code in {CODE_OK, INTERNAL}
      ensures Served(old(reg.history), reg.history)
    {
      hide Served, Registry.Valid, Cards, Only, StartAnswer, DistinctNumbers, DistinctNames, RepliedOnce, LastFits;
      ghost var cards, was := Cards(reg.jobs), reg.history;
      reg.CardsApart();
      var rc; ghost var at;
      rc, at := reg.Start(j, Operator);
      code := if rc == OK then CODE_OK else INTERNAL;
      ServedOne(was, if rc == OK then Event.Start(j.number, Operator, at, j.pid) else StartFailed(j.number, Operator));
      StartDone(cards, Cards(reg.jobs), i, code);
      if rc != OK {
        var text := ErrorText();
        peer.ReplyErr(req, INTERNAL, text);
        return;
      }
      peer.ReplyErr(req, CODE_OK, "");
    }

    /** Whatever the registry wrote into an error buffer. */
    method ErrorText() returns (text: string)
      ensures |text| < 512
    {
      text := *;
      text := text[..if |text| < 512 then |text| else 511];
    }

    /** handle_stop: five seconds' grace before SIGKILL. */
    method HandleStop(peer: Peer, req: Message) returns (ghost code: int, ghost calls: seq<Call>)
      requires reg.Valid() && !peer.cancelled
      modifies peer`replies, reg`history, reg.jobs, reg.os
      ensures reg.Valid() && RepliedOnce(old(peer.replies), peer.replies, req, code) && LastFits(peer.replies)
      ensures StopAnswer(Argument(req, "label"), old(Cards(reg.jobs)), Cards(reg.jobs), code)
      ensures code != CODE_OK ==> reg.history == old(reg.history)
      ensures Served(old(reg.history), reg.history)
      ensures reg.os.calls == old(reg.os.calls) + calls
      ensures calls == [] || GivesGrace(calls, Argument(req, "label"), old(Cards(reg.jobs)), 5000)
    {
      hide GivesGrace, Ends, Served, Registry.Valid, Cards, Only, Argument, Named, StopAnswer, LastFits, RepliedOnce;
      ghost var cards, was := Cards(reg.jobs), reg.history;
      calls := [];
      NothingServed(was);
      var name := Argument(req, "label");
      if name == None {
        code := BADARG;
        StopRefused(name, cards, code);
        peer.ReplyErr(req, BADARG, "missing 'label'");
        return;
      }
      NamedIff(reg.jobs, name.value);
      var j, i := reg.Find(name.value);
      if j == null {
        code := NOTFOUND;
        StopRefused(name, cards, code);
        peer.ReplyErr(req, NOTFOUND, "no such job");
        return;
      }
      if j.state == STOPPED {
        code := ALREADY;
        assert cards[i].status.state == STOPPED;
        StopRefused(name, cards, code);
        peer.ReplyErr(req, ALREADY, "job is already stopped");
        return;
      }
      code, calls := StopFound(peer, req, j, i);
    }

    /** The rest of it, for a job that is not stopped. */
    method StopFound(peer: Peer, req: Message, j: Job, ghost i: nat) returns (ghost code: int, ghost calls: seq<Call>)
      requires reg.Valid() && !peer.cancelled && i < |reg.jobs| && reg.jobs[i] == j && j.state != STOPPED
      modifies peer`replies, reg`history, reg.jobs, reg.os
      ensures reg.Valid() && RepliedOnce(old(peer.replies), peer.replies, req, code) && LastFits(peer.replies)
      ensures StopAnswer(Some(j.spec.name), old(Cards(reg.jobs)), Cards(reg.jobs), code) && code == CODE_OK
      ensures Served(old(reg.history), reg.history)
      ensures reg.os.calls == old(reg.os.calls) + calls
      ensures calls == [] || GivesGrace(calls, Some(j.spec.name), old(Cards(reg.jobs)), 5000)
    {
      hide GivesGrace, Ends, Served, Registry.Valid, Cards, Only, StopAnswer, DistinctNumbers, DistinctNames, LastFits,
        RepliedOnce;
      ghost var cards, was := Cards(reg.jobs), reg.history;
      reg.CardsApart();
      var rc; ghost var exit;
      rc, exit, calls := reg.Stop(j, 5000);
      if exit.Some? {
        GraceGiven(calls, cards, i, 5000, exit.value);
      }
      code := CODE_OK;
      ServedOne(was, Event.Stop(j.number, exit));
      StopDone(cards, Cards(reg.jobs), i);
      peer.ReplyErr(req, CODE_OK, "");
    }

    /** handle_unload. */
    method HandleUnload(peer: Peer, req: Message) returns (ghost code: int)
      requires reg.Valid() && !peer.cancelled
      modifies peer`replies, reg`jobs, reg`history, reg.jobs, reg.os
      ensures reg.Valid() && RepliedOnce(old(peer.replies), peer.replies, req, code) && LastFits(peer.replies)
      ensures forall k :: 0 <= k < |reg.jobs| ==> reg.jobs[k] in old(reg.jobs) || fresh(reg.jobs[k])
      ensures UnloadAnswer(Argument(req, "label"), old(Cards(reg.jobs)), Cards(reg.jobs), code)
      ensures code != CODE_OK ==> reg.history == old(reg.history)
      ensures Served(old(reg.history), reg.history)
    {
      hide Served, Registry.Valid, Cards, Only, Argument, Named, UnloadAnswer, LastFits, RepliedOnce, Omit;
      ghost var cards, was := Cards(reg.jobs), reg.history;
      NothingServed(was);
      var name := Argument(req, "label");
      if name == None {
        code := BADARG;
        UnloadRefused(name, cards, code);
        peer.ReplyErr(req, BADARG, "missing 'label'");
        return;
      }
      NamedIff(reg.jobs, name.value);
      var j, _ := reg.Find(name.value);
      if j == null {
        code := NOTFOUND;
        UnloadRefused(name, cards, code);
        peer.ReplyErr(req, NOTFOUND, "no such job");
        return;
      }
      var rc, i; ghost var exit, calls;
      rc, i, exit, calls := reg.Unload(name.value);
      ServedUnload(was, cards[i].number, exit);
      code := CODE_OK;
      UnloadDone(cards, i);
      peer.ReplyErr(req, CODE_OK, "");
    }

    /** handle_load. */
    method HandleLoad(peer: Peer, req: Message, disk: map<string, Parsed>) returns (ghost code: int)
      requires reg.Valid() && !peer.cancelled
      requires forall p :: p in disk && disk[p].Bad? ==> disk[p].rc != OK
      modifies peer`replies, reg`jobs, reg`history
      ensures reg.Valid() && RepliedOnce(old(peer.replies), peer.replies, req, code) && LastFits(peer.replies)
      ensures forall k :: 0 <= k < |reg.jobs| ==> reg.jobs[k] in old(reg.jobs) || fresh(reg.jobs[k])
      ensures LoadAnswer(Argument(req, "path"), disk, old(Cards(reg.jobs)), Cards(reg.jobs), code)
      ensures code != CODE_OK ==> reg.history == old(reg.history)
      ensures Served(old(reg.history), reg.history)
    {
      hide Served, Registry.Valid, Cards, Argument, Named, LoadAnswer, LastFits, RepliedOnce;
      ghost var cards, was := Cards(reg.jobs), reg.history;
      NothingServed(was);
      var path := Argument(req, "path");
      if path == None {
        code := BADARG;
        LoadRefused(path, disk, cards, code);
        peer.ReplyErr(req, BADARG, "missing 'path'");
        return;
      }
      var parsed := ReadJob(disk, path.value);
      if parsed.Good? {
        NamedIff(reg.jobs, parsed.spec.name);
      }
      var rc, j := reg.LoadPlist(parsed);
      if rc != OK {
        code := PLIST;
        LoadRefused(path, disk, cards, code);
        var text := ErrorText();
        peer.ReplyErr(req, PLIST, text);
        return;
      }
      code := CODE_OK;
      ServedOne(was, Load(j.number, parsed.spec));
      LoadDone(path.value, disk, cards, j.number);
      peer.ReplyErr(req, CODE_OK, "");
    }

    /** handle_status. */
    method HandleStatus(peer: Peer, req: Message) returns (ghost code: int)
      requires reg.Valid() && !peer.cancelled
      modifies peer`replies
      ensures reg.Valid() && RepliedOnce(old(peer.replies), peer.replies, req, code)
      ensures StatusAnswer(Argument(req, "label"), Cards(reg.jobs), Cards(reg.jobs), code)
      ensures LastFits(peer.replies) <==> !LongLabel(Argument(req, "label"), Cards(reg.jobs))
      ensures code == CODE_OK ==> exists i ::
        && 0 <= i < |reg.jobs| && Some(reg.jobs[i].spec.name) == Argument(req, "label")
        && peer.replies[|peer.replies| - 1].entries == StatusEntries(Ascii(reg.jobs[i].spec.name), reg.jobs[i].Fields())
    {
      hide Registry.Valid, Cards, Argument, Named, StatusEntries, CodeOf, LongLabel, DistinctNumbers, DistinctNames,
        Fits, StateName;
      var name := Argument(req, "label");
      if name == None {
        code := BADARG;
        NoLongLabel(name, Cards(reg.jobs));
        peer.ReplyErr(req, BADARG, "missing 'label'");
        return;
      }
      NamedIff(reg.jobs, name.value);
      var j, i := reg.Find(name.value);
      if j == null {
        code := NOTFOUND;
        NoLongLabel(name, Cards(reg.jobs));
        peer.ReplyErr(req, NOTFOUND, "no such job");
        return;
      }
      code := CODE_OK;
      StatusFirst(Ascii(name.value), j.Fields(), req.id);
      StatusSize(Ascii(name.value), j.Fields(), req.id);
      reg.CardsApart();
      LongLabelAt(Cards(reg.jobs), i);
      assert Cards(reg.jobs)[i] == j.View();
      var rc := peer.Reply(req, StatusEntries(Ascii(name.value), j.Fields()));
    }

    /** handle_list. */
    method HandleList(peer: Peer, req: Message) returns (ghost code: int)
      requires !peer.cancelled
      modifies peer`replies
      ensures RepliedOnce(old(peer.replies), peer.replies, req, code) && code == CODE_OK && LastFits(peer.replies)
      ensures peer.replies[|peer.replies| - 1].entries == ListEntries(Cards(reg.jobs))
    {
      hide Cards, CodeOf, ListEntries, Cut, Table;
      var text := TableText();
      code := CODE_OK;
      ListFirst(Cards(reg.jobs), req.id);
      var rc := peer.Reply(req, ListReply(text));
    }

    /** The loop over the jobs, which stops when the buffer is full. */
    method TableText() returns (text: string)
      ensures text == Cut(Table(Cards(reg.jobs)))
    {
      hide Cards, JobLine, Heading, Rows, Cut, Print;
      ghost var cs := Cards(reg.jobs);
      HeadingFits();
      text := Heading();
      var off := |text|;
      var i := 0;
      NoRows(cs);
      while i < |reg.jobs| && off < ROOM
        invariant i <= |reg.jobs| && off == |Heading() + Rows(cs[..i])|
        invariant |text| <= ROOM && text == Cut(Heading() + Rows(cs[..i]))
      {
        var j := reg.jobs[i];
        var line := Line(j.spec.name, if j.pid > 0 then Digits(j.pid) else "-", StateName(j.state));
        LineOfJob(cs, i, j);
        NextRow(cs, i, text);
        text := Print(text, line);
        off := off + |line|;
        i := i + 1;
      }
      if |reg.jobs| == 0 {
        text := Print(text, "(no jobs loaded)\n");
        EmptyTable();
      } else {
        FullTable(cs, i);
      }
    }

    lemma LineOfJob(cs: seq<Card>, i: nat, j: Job)
      requires i < |cs| && cs[i] == j.View()
      ensures JobLine(cs[i]) == Line(j.spec.name, if j.pid > 0 then Digits(j.pid) else "-", StateName(j.state))
    {
    }

    /** handle_request, after the wait for the request (None: none came in time, or a bad one). */
    method HandleRequest(peer: Peer, received: Option<Message>, disk: map<string, Parsed>) returns (ghost code: int)
      requires reg.Valid() && !peer.cancelled
      requires forall p :: p in disk && disk[p].Bad? ==> disk[p].rc != OK
      modifies peer, reg`jobs, reg`history, reg.jobs, reg.os
      ensures reg.Valid() && peer.cancelled
      ensures forall k :: 0 <= k < |reg.jobs| ==> reg.jobs[k] in old(reg.jobs) || fresh(reg.jobs[k])
      ensures received == None ==> peer.replies == old(peer.replies) && Cards(reg.jobs) == old(Cards(reg.jobs))
      ensures received.Some? ==>
        && RepliedOnce(old(peer.replies), peer.replies, received.value, code)
        && (LastFits(peer.replies) <==> !Unanswerable(received.value, old(Cards(reg.jobs))))
        && Answer(received.value, disk, old(Cards(reg.jobs)), Cards(reg.jobs), code)
      ensures received == None || code in {NOTFOUND, ALREADY, BADVERB, BADARG, PLIST} ==>
        reg.history == old(reg.history)
      ensures Served(old(reg.history), reg.history)
    {
      hide Served, Registry.Valid, Cards, Argument, RepliedOnce, LastFits, LoadAnswer, UnloadAnswer, StartAnswer,
        StopAnswer, StatusAnswer;
      code := CODE_OK;
      NothingServed(reg.history);
      if received.Some? {
        var req := received.value;
        var verb := Argument(req, "verb");
        if verb == None {
          code := BADVERB;
          peer.ReplyErr(req, BADVERB, "missing 'verb'");
        } else {
          code := Dispatch(peer, req, verb.value, disk);
        }
      }
      peer.cancelled := true;
    }

    /** The walk over the dispatch table. */
    method Dispatch(peer: Peer, req: Message, verb: string, disk: map<string, Parsed>) returns (ghost code: int)
      requires reg.Valid() && !peer.cancelled && Argument(req, "verb") == Some(verb)
      requires forall p :: p in disk && disk[p].Bad? ==> disk[p].rc != OK
      modifies peer`replies, reg`jobs, reg`history, reg.jobs, reg.os
      ensures reg.Valid() && RepliedOnce(old(peer.replies), peer.replies, req, code)
      ensures LastFits(peer.replies) <==> !Unanswerable(req, old(Cards(reg.jobs)))
      ensures forall k :: 0 <= k < |reg.jobs| ==> reg.jobs[k] in old(reg.jobs) || fresh(reg.jobs[k])
      ensures Answer(req, disk, old(Cards(reg.jobs)), Cards(reg.jobs), code)
      ensures code in {NOTFOUND, ALREADY, BADVERB, BADARG, PLIST} ==> reg.history == old(reg.history)
      ensures Served(old(reg.history), reg.history)
    {
      hide Served, Registry.Valid, Cards, Argument, RepliedOnce, LastFits, Answer, LoadAnswer, UnloadAnswer,
        StartAnswer, StopAnswer, StatusAnswer, Unanswerable, LongLabel;
      NothingServed(reg.history);
      var i := VerbIndex(verb);
      ghost var was := Cards(reg.jobs);
      match i {
        case 0 => code := HandleList(peer, req);
        case 1 => code := HandleStatus(peer, req);
        case 2 => code := HandleLoad(peer, req, disk);
        case 3 => code := HandleUnload(peer, req);
        case 4 => code := HandleStart(peer, req);
        case 5 =>
          ghost var calls;
          code, calls := HandleStop(peer, req);
        case _ =>
          code := BADVERB;
          var text := "unknown verb '" + verb + "'";
          peer.ReplyErr(req, BADVERB, text[..if |text| < 128 then |text| else 127]);
      }
      Routed(i, req, verb, disk, was, Cards(reg.jobs), code);
      OnlyStatusIsLong(i, req, verb, was);
    }

    /** The walk over the table: the position of the verb, or its length. */
    method VerbIndex(verb: string) returns (i: nat)
      ensures i <= |VERBS| && (i < |VERBS| ==> verb == VERBS[i]) && (i == |VERBS| ==> verb !in VERBS)
    {
      i := 0;
      while i < |VERBS| && verb != VERBS[i]
        invariant i <= |VERBS| && forall k :: 0 <= k < i ==> verb != VERBS[k]
      {
        i := i + 1;
      }
    }
  }
}
