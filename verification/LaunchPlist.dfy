/**
 * From a property list to a job: what launch_registry_load_plist makes of a
 * file, and that a job's description is loaded as that job.
 */
module LaunchPlist {
  import opened Common
  import opened PlistGrammar
  import opened PlistRoundTrip
  import opened PlistDocument
  import opened PlistLoose
  import opened PlistAccepted
  import opened LaunchHistory
  import opened LaunchTracking

  const LABEL := Ascii("Label")
  const PROGRAM := Ascii("Program")
  const ARGUMENTS := Ascii("ProgramArguments")
  const RUN_AT_LOAD := Ascii("RunAtLoad")
  const KEEP_ALIVE := Ascii("KeepAlive")
  const SUCCESSFUL_EXIT := Ascii("SuccessfulExit")
  const THROTTLE := Ascii("ThrottleInterval")
  const SOCKETS := Ascii("Sockets")
  const SOCK_PATH := Ascii("SockPathName")

  /** plist_dict_get on the entries of a dictionary: the first match. */
  function Lookup(items: seq<Item>, key: seq<Byte>): Option<Value> {
    if items == [] then None
    else if items[0].key == key then Some(items[0].value)
    else Lookup(items[1..], key)
  }

  function DictGet(v: Value, key: seq<Byte>): Option<Value> {
    if v.Dict? then Lookup(v.items, key) else None
  }

  function StringOf(v: Option<Value>): Option<seq<Byte>> {
    if v.Some? && v.value.Str? then Some(v.value.text) else None
  }

  function BoolOf(v: Option<Value>): bool {
    v.Some? && v.value.Boolean? && v.value.b
  }

  /** plist_integer_value with fallback 0; `truncate` is the conversion of a <real>. */
  function IntegerOf(v: Value, truncate: seq<Byte> -> int): int {
    match v
    case Integer(i) => i
    case Real(digits) => truncate(digits)
    case _ => 0
  }

  /** parse_keepalive. */
  function ParseKeepAlive(ka: Option<Value>): KeepAlive {
    match ka
    case Some(Boolean(b)) => if b then Always else Never
    case Some(Dict(items)) =>
      var se := Lookup(items, SUCCESSFUL_EXIT);
      if se == None then Always else if BoolOf(se) then OnSuccess else OnFailure
    case _ => Never
  }

  /** job_set_argv succeeds: a program, or a non-empty list of strings. */
  predicate Runnable(root: Value) {
    match DictGet(root, ARGUMENTS)
    case Some(Array(elems)) => elems != [] && forall i :: 0 <= i < |elems| ==> elems[i].Str?
    case _ => StringOf(DictGet(root, PROGRAM)).Some?
  }

  /** The activation sockets, or None when one is not a dictionary with a path. */
  function SocketsOf(root: Value): Option<nat> {
    match DictGet(root, SOCKETS)
    case Some(Dict(items)) =>
      if forall i :: 0 <= i < |items| ==> StringOf(DictGet(items[i].value, SOCK_PATH)).Some? then Some(|items|)
        else None
    case _ => Some(0)
  }

  function ThrottleOf(root: Value, default: nat, truncate: seq<Byte> -> int): nat {
    match DictGet(root, THROTTLE)
    case None => default
    case Some(v) => var ms := IntegerOf(v, truncate) * 1000; if ms < 0 then 0 else ms
  }

  /** job_from_plist. */
  function JobFrom(root: Value, default: nat, truncate: seq<Byte> -> int): Parsed {
    var name := StringOf(DictGet(root, LABEL));
    if name == None || name.value == [] || !Runnable(root) || SocketsOf(root) == None then Bad(EPARSE)
    else Good(Spec(Text(name.value), BoolOf(DictGet(root, RUN_AT_LOAD)), ParseKeepAlive(DictGet(root, KEEP_ALIVE)),
                   ThrottleOf(root, default, truncate), SocketsOf(root).value))
  }

  /** The parsing half of launch_registry_load_plist, on a file's bytes. */
  function LoadText(xml: seq<Byte>, default: nat, truncate: seq<Byte> -> int): Parsed {
    match ParseString(xml)
    case Failed(_) => Bad(EPARSE)
    case Done(root, _) => JobFrom(root, default, truncate)
  }

  // ------------------------------------------------------------ describing

  /** Of the entries with this key the first has the value; or there is none. */
  predicate Says(items: seq<Item>, key: string, v: Option<Value>) {
    match v
    case None => forall i :: 0 <= i < |items| ==> items[i].key != Ascii(key)
    case Some(x) =>
      exists i ::
        0 <= i < |items| && items[i] == Item(Ascii(key), x) && forall j :: 0 <= j < i ==> items[j].key != Ascii(key)
  }

  ghost predicate SaysText(v: Value, key: string) {
    v.Dict? && exists text :: Says(v.items, key, Some(Str(text)))
  }

  /** What a job's dictionary says about the job. */
  datatype Description = Description(
    title: Option<Value>,
    program: Option<Value>,
    argv: Option<Value>,
    runAtLoad: Option<Value>,
    keepAlive: Option<Value>,
    seconds: Option<Value>,
    sockets: Option<Value>)

  /** The dictionary says so, in any order, among any other keys. */
  predicate Describes(items: seq<Item>, d: Description) {
    && Says(items, "Label", d.title)
    && Says(items, "Program", d.program)
    && Says(items, "ProgramArguments", d.argv)
    && Says(items, "RunAtLoad", d.runAtLoad)
    && Says(items, "KeepAlive", d.keepAlive)
    && Says(items, "ThrottleInterval", d.seconds)
    && Says(items, "Sockets", d.sockets)
  }

  /** A list of strings, not empty; or no list, but a program. */
  ghost predicate HasCommand(d: Description) {
    if d.argv.Some? && d.argv.value.Array? then
      |d.argv.value.elems| > 0 && forall e :: e in d.argv.value.elems ==> e.Str?
    else d.program.Some? && d.program.value.Str?
  }

  /** It has a label that is not empty and a command, and each socket a path. */
  ghost predicate Complete(d: Description) {
    && d.title.Some? && d.title.value.Str? && |d.title.value.text| > 0
    && HasCommand(d)
    && (d.sockets.Some? && d.sockets.value.Dict? ==>
          forall x :: x in d.sockets.value.items ==> SaysText(x.value, "SockPathName"))
  }

  /**
   * What KeepAlive asks for after an exit: `true` a restart; a dictionary one
   * too, unless its SuccessfulExit is of the other kind; anything else none.
   */
  ghost predicate AsksForRestart(keepAlive: Option<Value>, exit: Exit) {
    match keepAlive
    case Some(Boolean(b)) => b
    case Some(Dict(items)) =>
      forall x :: Says(items, "SuccessfulExit", Some(x)) ==> (exit == ExitCode(0) <==> x == Boolean(true))
    case _ => false
  }

  /** The delay between two starts, in seconds: none if it is negative or not a number. */
  function Seconds(v: Value, truncate: seq<Byte> -> int): nat {
    match v
    case Integer(i) => if i > 0 then i else 0
    case Real(digits) => if truncate(digits) > 0 then truncate(digits) else 0
    case _ => 0
  }

  /** The described job. */
  ghost predicate IsJobOf(spec: Spec, d: Description, default: nat, truncate: seq<Byte> -> int) {
    && d.title.Some? && d.title.value.Str? && spec.name == Text(d.title.value.text)
    && (spec.runAtLoad <==> d.runAtLoad == Some(Boolean(true)))
    && (forall exit :: Accepts(spec.keepAlive, exit) <==> AsksForRestart(d.keepAlive, exit))
    && (d.seconds == None ==> spec.throttle == default)
    && (d.seconds.Some? ==> Seconds(d.seconds.value, truncate) * 1000 == spec.throttle)
    && spec.sockets == if d.sockets.Some? && d.sockets.value.Dict? then |d.sockets.value.items| else 0
  }

  lemma {:induction false} LookupSays(items: seq<Item>, key: string, v: Option<Value>)
    ensures Says(items, key, v) <==> Lookup(items, Ascii(key)) == v
  {
    hide Ascii;
    if items != [] {
      var rest := items[1..];
      LookupSays(rest, key, v);
      assert forall i :: 0 <= i < |rest| ==> rest[i] == items[i + 1];
      if items[0].key != Ascii(key) {
        if Says(items, key, v) {
          SaysLater(items, key, v);
        }
        if Says(rest, key, v) {
          SaysBefore(items, key, v);
        }
      } else {
        assert items[0] == Item(Ascii(key), items[0].value);
      }
    }
  }

  lemma SaysLater(items: seq<Item>, key: string, v: Option<Value>)
    requires items != [] && items[0].key != Ascii(key) && Says(items, key, v)
    ensures Says(items[1..], key, v)
  {
    hide Ascii;
    if v.Some? {
      var i :| 0 <= i < |items| && items[i] == Item(Ascii(key), v.value)
        && forall j :: 0 <= j < i ==> items[j].key != Ascii(key);
      assert items[1..][i - 1] == Item(Ascii(key), v.value);
    }
  }

  lemma SaysBefore(items: seq<Item>, key: string, v: Option<Value>)
    requires items != [] && items[0].key != Ascii(key) && Says(items[1..], key, v)
    ensures Says(items, key, v)
  {
    hide Ascii;
    var rest := items[1..];
    assert forall i :: 0 < i < |items| ==> items[i] == rest[i - 1];
    if v.Some? {
      var i :| 0 <= i < |rest| && rest[i] == Item(Ascii(key), v.value)
        && forall j :: 0 <= j < i ==> rest[j].key != Ascii(key);
      assert items[i + 1] == Item(Ascii(key), v.value);
    }
  }

  /** KeepAlive is acted on as it is meant, whatever it is and however a job exits. */
  lemma KeepAliveReads(keepAlive: Option<Value>, exit: Exit)
    ensures Accepts(ParseKeepAlive(keepAlive), exit) <==> AsksForRestart(keepAlive, exit)
  {
    hide Ascii, Says, Lookup;
    if keepAlive.Some? && keepAlive.value.Dict? {
      var items := keepAlive.value.items;
      LookupSays(items, "SuccessfulExit", Lookup(items, SUCCESSFUL_EXIT));
      forall x | Says(items, "SuccessfulExit", Some(x)) ensures Lookup(items, SUCCESSFUL_EXIT) == Some(x) {
        LookupSays(items, "SuccessfulExit", Some(x));
      }
    }
  }

  lemma PathSaid(v: Value)
    ensures StringOf(DictGet(v, SOCK_PATH)).Some? <==> SaysText(v, "SockPathName")
  {
    hide Ascii, Says, Lookup;
    if v.Dict? {
      LookupSays(v.items, "SockPathName", Lookup(v.items, SOCK_PATH));
      forall text | Says(v.items, "SockPathName", Some(Str(text)))
        ensures Lookup(v.items, SOCK_PATH) == Some(Str(text))
      {
        LookupSays(v.items, "SockPathName", Some(Str(text)));
      }
    }
  }

  lemma PathsSaid(items: seq<Item>)
    ensures (forall i :: 0 <= i < |items| ==> StringOf(DictGet(items[i].value, SOCK_PATH)).Some?) <==>
      forall x :: x in items ==> SaysText(x.value, "SockPathName")
  {
    hide SaysText, DictGet, StringOf, Ascii;
    forall x | x in items ensures StringOf(DictGet(x.value, SOCK_PATH)).Some? <==> SaysText(x.value, "SockPathName") {
      PathSaid(x.value);
    }
  }

  /** The description of a dictionary is what is found under the keys. */
  lemma DescribesIffFound(items: seq<Item>, d: Description)
    ensures Describes(items, d) <==>
      && Lookup(items, LABEL) == d.title && Lookup(items, PROGRAM) == d.program && Lookup(items, ARGUMENTS) == d.argv
      && Lookup(items, RUN_AT_LOAD) == d.runAtLoad && Lookup(items, KEEP_ALIVE) == d.keepAlive
      && Lookup(items, THROTTLE) == d.seconds && Lookup(items, SOCKETS) == d.sockets
  {
    hide Ascii, Says, Lookup;
    LookupSays(items, "Label", d.title);
    LookupSays(items, "Program", d.program);
    LookupSays(items, "ProgramArguments", d.argv);
    LookupSays(items, "RunAtLoad", d.runAtLoad);
    LookupSays(items, "KeepAlive", d.keepAlive);
    LookupSays(items, "ThrottleInterval", d.seconds);
    LookupSays(items, "Sockets", d.sockets);
  }

  /** Every dictionary has one description. */
  lemma OneDescription(items: seq<Item>) returns (d: Description)
    ensures Describes(items, d)
    ensures forall other :: Describes(items, other) ==> other == d
  {
    hide Ascii, Lookup, Describes;
    d := Description(Lookup(items, LABEL), Lookup(items, PROGRAM), Lookup(items, ARGUMENTS),
                     Lookup(items, RUN_AT_LOAD), Lookup(items, KEEP_ALIVE), Lookup(items, THROTTLE),
                     Lookup(items, SOCKETS));
    DescribesIffFound(items, d);
    forall other | Describes(items, other) ensures other == d {
      DescribesIffFound(items, other);
    }
  }

  lemma CommandFound(items: seq<Item>, d: Description)
    requires Lookup(items, PROGRAM) == d.program && Lookup(items, ARGUMENTS) == d.argv
    ensures Runnable(Dict(items)) <==> HasCommand(d)
  {
    hide Ascii, Lookup;
  }

  lemma SocketsFound(items: seq<Item>, d: Description)
    requires Lookup(items, SOCKETS) == d.sockets
    ensures SocketsOf(Dict(items)) ==
      if d.sockets.Some? && d.sockets.value.Dict? then
        if forall x :: x in d.sockets.value.items ==> SaysText(x.value, "SockPathName")
        then Some(|d.sockets.value.items|) else None
      else Some(0)
  {
    hide Ascii, Lookup, SaysText, StringOf;
    if d.sockets.Some? && d.sockets.value.Dict? {
      PathsSaid(d.sockets.value.items);
    }
  }

  /**
   * A dictionary makes a job exactly when its description is complete, and then
   * it is the described job: in whatever order the keys come, whatever other
   * keys there are, and however often a key comes again.
   */
  lemma DescribedJob(items: seq<Item>, d: Description, default: nat, truncate: seq<Byte> -> int)
    requires Describes(items, d)
    ensures Complete(d) ==>
      var job := JobFrom(Dict(items), default, truncate);
      job.Good? && IsJobOf(job.spec, d, default, truncate)
    ensures !Complete(d) ==> JobFrom(Dict(items), default, truncate) == Bad(EPARSE)
  {
    hide Ascii, Lookup, Describes, Runnable, HasCommand, SocketsOf, ParseKeepAlive, AsksForRestart, SaysText, Accepts,
      Text;
    DescribesIffFound(items, d);
    CommandFound(items, d);
    SocketsFound(items, d);
    forall exit ensures Accepts(ParseKeepAlive(d.keepAlive), exit) <==> AsksForRestart(d.keepAlive, exit) {
      KeepAliveReads(d.keepAlive, exit);
    }
  }

  /** The description settles the job: there is no other job it could be. */
  lemma OneJob(a: Spec, b: Spec, d: Description, default: nat, truncate: seq<Byte> -> int)
    requires IsJobOf(a, d, default, truncate) && IsJobOf(b, d, default, truncate)
    ensures a == b
  {
    hide AsksForRestart, Text;
    assert Accepts(a.keepAlive, ExitCode(0)) <==> Accepts(b.keepAlive, ExitCode(0));
    assert Accepts(a.keepAlive, ExitCode(1)) <==> Accepts(b.keepAlive, ExitCode(1));
  }

  /** And so it is for any document that means such a dictionary. */
  lemma DescriptionLoads(doc: Document, trailing: seq<Byte>, items: seq<Item>, d: Description, default: nat,
                         truncate: seq<Byte> -> int)
    requires GoodDocument(doc) && Meaning(doc.x) == Dict(items) && Describes(items, d)
    ensures Complete(d) ==>
      var job := LoadText(RenderDocument(doc) + trailing, default, truncate);
      job.Good? && IsJobOf(job.spec, d, default, truncate)
    ensures !Complete(d) ==> LoadText(RenderDocument(doc) + trailing, default, truncate) == Bad(EPARSE)
  {
    DocumentRoundTrip(doc, trailing);
    DescribedJob(items, d, default, truncate);
    hide JobFrom, Describes, Complete, IsJobOf, ParseString, RenderDocument, Meaning;
  }

  /** A document that means anything but a dictionary makes no job. */
  lemma OnlyDictionariesLoad(doc: Document, trailing: seq<Byte>, default: nat, truncate: seq<Byte> -> int)
    requires GoodDocument(doc) && !Meaning(doc.x).Dict?
    ensures LoadText(RenderDocument(doc) + trailing, default, truncate) == Bad(EPARSE)
  {
    DocumentRoundTrip(doc, trailing);
    hide ParseString, RenderDocument, Meaning, Runnable, SocketsOf;
  }

  /** The bytes begin with a document, of the loose form, whose dictionary describes this job. */
  ghost predicate SaysJob(xml: seq<Byte>, d: LooseDocument, trailing: seq<Byte>, spec: Spec, default: nat,
                          truncate: seq<Byte> -> int) {
    && GoodLooseDocument(d) && xml == RenderLooseDocument(d) + trailing
    && Tree(d.x).Dict? && exists means ::
      Describes(Tree(d.x).items, means) && Complete(means) && IsJobOf(spec, means, default, truncate)
  }

  /**
   * A file loads as a job exactly when it is a document that describes this job,
   * and no other file loads.
   */
  lemma LoadsExactlyDescribedJobs(xml: seq<Byte>, spec: Spec, default: nat, truncate: seq<Byte> -> int)
    ensures LoadText(xml, default, truncate) == Good(spec) <==>
      exists d, trailing :: SaysJob(xml, d, trailing, spec, default, truncate)
    ensures LoadText(xml, default, truncate).Bad? ==> LoadText(xml, default, truncate) == Bad(EPARSE)
  {
    hide JobFrom, Describes, Complete, IsJobOf, ParseString, RenderLooseDocument, Tree, GoodLoose, Closes;
    if LoadText(xml, default, truncate) == Good(spec) {
      var root, rest := ParseString(xml).value, ParseString(xml).rest;
      AcceptsExactlyLooseDocuments(xml, root, rest);
      var d :| GoodLooseDocument(d) && xml == RenderLooseDocument(d) + rest && Tree(d.x) == root;
      JobIsDescribed(root, spec, default, truncate);
      assert SaysJob(xml, d, rest, spec, default, truncate);
    }
    if d, trailing :| SaysJob(xml, d, trailing, spec, default, truncate) {
      AcceptsExactlyLooseDocuments(xml, Tree(d.x), trailing);
      var means :| Describes(Tree(d.x).items, means) && Complete(means) && IsJobOf(spec, means, default, truncate);
      DescribedJob(Tree(d.x).items, means, default, truncate);
      OneJob(spec, JobFrom(Tree(d.x), default, truncate).spec, means, default, truncate);
    }
    OnlyParseErrors(xml, default, truncate);
  }

  lemma OnlyParseErrors(xml: seq<Byte>, default: nat, truncate: seq<Byte> -> int)
    ensures LoadText(xml, default, truncate).Bad? ==> LoadText(xml, default, truncate) == Bad(EPARSE)
  {
    hide ParseString, Runnable, SocketsOf;
  }

  lemma JobIsDescribed(root: Value, spec: Spec, default: nat, truncate: seq<Byte> -> int)
    requires JobFrom(root, default, truncate) == Good(spec)
    ensures root.Dict? && exists means ::
      Describes(root.items, means) && Complete(means) && IsJobOf(spec, means, default, truncate)
  {
    OnlyFromDictionaries(root, default, truncate);
    hide JobFrom, Describes, Complete, IsJobOf;
    var means := OneDescription(root.items);
    DescribedJob(root.items, means, default, truncate);
  }

  lemma OnlyFromDictionaries(root: Value, default: nat, truncate: seq<Byte> -> int)
    requires JobFrom(root, default, truncate).Good?
    ensures root.Dict?
  {
    hide Runnable, SocketsOf;
  }
}
