/** The text of the job table that the list verb answers with, cut to its buffer. */
module LaunchTable {
  import opened LaunchHistory
  import opened LaunchTracking

  const ROOM: nat := 16383        // of the 16384 bytes of the buffer, one is the terminator

  /** lctl_state_string. */
  function StateName(s: JobState): string {
    match s
    case LOADED => "loaded"
    case RUNNING => "running"
    case EXITED => "exited"
    case WAITING => "waiting"
    case STOPPED => "stopped"
    case FAILED => "failed"
  }

  function Digits(n: nat): (s: string)
    ensures s != [] && forall i :: 0 <= i < |s| ==> '0' <= s[i] <= '9'
  {
    var last := ['0' + (n % 10) as char];
    if n < 10 then last else Digits(n / 10) + last
  }

  function Number(s: string): int {
    if s == [] then 0 else 10 * Number(s[..|s| - 1]) + (s[|s| - 1] as int - '0' as int)
  }

  lemma {:induction false} DigitsRead(n: nat)
    ensures Number(Digits(n)) == n
  {
    var s := Digits(n);
    if n < 10 {
      assert s[..0] == [] && Number([]) == 0;
    } else {
      assert s[..|s| - 1] == Digits(n / 10);
      DigitsRead(n / 10);
    }
  }

  /** A column, filled up with blanks. */
  function Column(s: string, width: nat): string {
    if |s| >= width then s else s + seq(width - |s|, i => ' ')
  }

  function Line(name: string, pid: string, state: string): string {
    Column(name, 40) + "  " + Column(pid, 8) + "  " + state + "\n"
  }

  function PidText(pid: int): string {
    if pid > 0 then Digits(pid) else "-"
  }

  function JobLine(c: Card): string {
    Line(c.spec.name, PidText(c.status.pid), StateName(c.status.state))
  }

  predicate Blank(s: string) {
    forall k :: 0 <= k < |s| ==> s[k] == ' '
  }

  lemma ColumnReads(s: string, width: nat)
    ensures s <= Column(s, width) && Blank(Column(s, width)[|s|..])
    ensures |Column(s, width)| == if |s| < width then width else |s|
  {
  }

  lemma Pieces(a: string, b: string, c: string, d: string, e: string)
    ensures var s := a + b + c + d + e;
      && |s| == |a| + |b| + |c| + |d| + |e|
      && s[..|a|] == a && s[|a|..|a| + |b|] == b && s[|a| + |b|..|a| + |b| + |c|] == c
      && s[|a| + |b| + |c|..|a| + |b| + |c| + |d|] == d && s[|a| + |b| + |c| + |d|..] == e
  {
  }

  /** A line is its pieces: name and process number, each with blanks behind it, and the state. */
  lemma LinePieces(name: string, pid: string, state: string) returns (gap: string, gap': string)
    ensures Line(name, pid, state) == name + gap + pid + gap' + (state + "\n")
    ensures Blank(gap) && |gap| == if |name| < 40 then 42 - |name| else 2
    ensures Blank(gap') && |gap'| == if |pid| < 8 then 10 - |pid| else 2
  {
    var a, b := Column(name, 40), Column(pid, 8);
    ColumnReads(name, 40);
    ColumnReads(pid, 8);
    gap, gap' := a[|name|..] + "  ", b[|pid|..] + "  ";
    hide Column;
    assert a == name + a[|name|..] && b == pid + b[|pid|..];
    assert a + "  " == name + gap && b + "  " == pid + gap';
    assert a + "  " + b + "  " + state + "\n" == (a + "  ") + (b + "  ") + (state + "\n");
    assert (name + gap) + (pid + gap') + (state + "\n") == name + gap + pid + gap' + (state + "\n");
  }

  /**
   * A line is read by its columns: the label at the margin, the process number
   * (or a dash) at column 42, the state at column 52, the rest blank. Only a
   * label of more than 40 characters moves the others to the right.
   */
  lemma LineReads(c: Card)
    requires |c.spec.name| <= 40 && |PidText(c.status.pid)| <= 8
    ensures var line, name, pid := JobLine(c), c.spec.name, PidText(c.status.pid);
      && |line| == 53 + |StateName(c.status.state)|
      && line[..|name|] == name && Blank(line[|name|..42])
      && line[42..42 + |pid|] == pid && Blank(line[42 + |pid|..52])
      && line[52..] == StateName(c.status.state) + "\n"
  {
    hide StateName, PidText, Line;
    var name, pid, state := c.spec.name, PidText(c.status.pid), StateName(c.status.state);
    var gap, gap' := LinePieces(name, pid, state);
    Pieces(name, gap, pid, gap', state + "\n");
  }

  /** The process number is read back as it was. */
  lemma PidReads(pid: int)
    ensures if pid > 0 then Number(PidText(pid)) == pid && PidText(pid) != "-" else PidText(pid) == "-"
  {
    if pid > 0 {
      DigitsRead(pid);
    }
    hide Number;
    assert pid > 0 ==> '0' <= PidText(pid)[0];
  }

  function Rows(cs: seq<Card>): string {
    if cs == [] then "" else Rows(cs[..|cs| - 1]) + JobLine(cs[|cs| - 1])
  }

  function Heading(): string {
    Line("LABEL", "PID", "STATE")
  }

  function Table(cs: seq<Card>): string {
    Heading() + if cs == [] then "(no jobs loaded)\n" else Rows(cs)
  }

  function Cut(s: string): string {
    if |s| <= ROOM then s else s[..ROOM]
  }

  /** snprintf behind what is there: as much of the line as there is room for. */
  function Print(text: string, line: string): string
    requires |text| <= ROOM
  {
    text + if |text| + |line| <= ROOM then line else line[..ROOM - |text|]
  }

  lemma PrintCuts(text: string, line: string)
    requires |text| <= ROOM
    ensures Print(text, line) == Cut(text + line)
  {
  }

  lemma OneMoreRow(cs: seq<Card>, i: nat)
    requires i < |cs|
    ensures Rows(cs[..i + 1]) == Rows(cs[..i]) + JobLine(cs[i])
    ensures Heading() + Rows(cs[..i]) + JobLine(cs[i]) == Heading() + Rows(cs[..i + 1])
  {
    hide JobLine, Heading;
    assert cs[..i + 1][..i] == cs[..i];
    assert Heading() + (Rows(cs[..i]) + JobLine(cs[i])) == Heading() + Rows(cs[..i]) + JobLine(cs[i]);
  }

  /** When the buffer is full, the rows that are left do not matter. */
  lemma {:induction false} FullIsFull(cs: seq<Card>, i: nat)
    requires i <= |cs| && |Heading() + Rows(cs[..i])| >= ROOM
    ensures Cut(Heading() + Rows(cs)) == Cut(Heading() + Rows(cs[..i]))
    decreases |cs| - i
  {
    hide JobLine, Heading;
    if i == |cs| {
      assert cs[..i] == cs;
    } else {
      OneMoreRow(cs, i);
      FullIsFull(cs, i + 1);
    }
  }

  /** Every job's line is shown when the table fits its buffer. */
  lemma {:induction false} JobIsListed(cs: seq<Card>, i: nat)
    requires i < |cs| && |Table(cs)| <= ROOM
    ensures exists p :: StandsAt(Cut(Table(cs)), p, JobLine(cs[i]))
  {
    hide JobLine, Heading;
    RowsAround(cs, i);
    var p := |Heading()| + |Rows(cs[..i])|;
    assert Table(cs)[p..p + |JobLine(cs[i])|] == JobLine(cs[i]);
    assert StandsAt(Cut(Table(cs)), p, JobLine(cs[i]));
  }

  predicate StandsAt(text: string, p: nat, line: string) {
    p + |line| <= |text| && text[p..p + |line|] == line
  }

  lemma {:induction false} RowsAround(cs: seq<Card>, i: nat)
    requires i < |cs|
    ensures var p := |Rows(cs[..i])|;
      p + |JobLine(cs[i])| <= |Rows(cs)| && Rows(cs)[p..p + |JobLine(cs[i])|] == JobLine(cs[i])
  {
    hide JobLine;
    var n := |cs| - 1;
    var above, last := Rows(cs[..n]), JobLine(cs[n]);
    assert Rows(cs) == above + last;
    if i < n {
      RowsAround(cs[..n], i);
      assert cs[..n][..i] == cs[..i] && cs[..n][i] == cs[i];
      Within(above, last, |Rows(cs[..i])|, |JobLine(cs[i])|);
    } else {
      assert (above + last)[|above|..] == last;
    }
  }

  lemma Within(a: string, b: string, p: nat, length: nat)
    requires p + length <= |a|
    ensures (a + b)[p..p + length] == a[p..p + length]
  {
  }

  // --------------------------------------------------- the loop over the jobs

  lemma HeadingFits()
    ensures |Heading()| <= 100
  {
  }

  lemma NoRows(cs: seq<Card>)
    ensures Heading() + Rows(cs[..0]) == Heading()
    ensures |Heading()| <= ROOM && Cut(Heading()) == Heading()
  {
    HeadingFits();
    assert Heading() + "" == Heading();
  }

  lemma NextRow(cs: seq<Card>, i: nat, text: string)
    requires i < |cs| && |Heading() + Rows(cs[..i])| < ROOM && text == Cut(Heading() + Rows(cs[..i]))
    ensures |text| <= ROOM && |Print(text, JobLine(cs[i]))| <= ROOM
    ensures Print(text, JobLine(cs[i])) == Cut(Heading() + Rows(cs[..i + 1]))
    ensures |Heading() + Rows(cs[..i])| + |JobLine(cs[i])| == |Heading() + Rows(cs[..i + 1])|
  {
    hide JobLine, Heading, Rows;
    OneMoreRow(cs, i);
    PrintCuts(text, JobLine(cs[i]));
  }

  lemma EmptyTable()
    ensures |Heading()| <= ROOM && Print(Heading(), "(no jobs loaded)\n") == Cut(Table([]))
  {
    HeadingFits();
    PrintCuts(Heading(), "(no jobs loaded)\n");
  }

  lemma FullTable(cs: seq<Card>, i: nat)
    requires cs != [] && i <= |cs| && (i < |cs| ==> |Heading() + Rows(cs[..i])| >= ROOM)
    ensures Cut(Heading() + Rows(cs[..i])) == Cut(Table(cs))
  {
    hide JobLine, Heading, Rows, Cut;
    if i < |cs| {
      FullIsFull(cs, i);
    } else {
      assert cs[..i] == cs;
    }
  }
}
