/**
  One connection of the line echo server in r_tcp_to_can/src/main.rs: a task that reads lines and a task
  that writes them, joined by a channel of capacity 100.

  The input is what the client sends before it closes.  Dropping the sender closes the channel once it is
  drained; dropping the receiver discards what is queued and makes sends fail.
 */
module EchoPipeline {

  const CAPACITY: nat := 100

  datatype Reader = Reading | Sending(line: string) | ReaderStopped

  datatype Writer = Receiving | Writing(text: string) | WriterStopped

  /** `readFailed` and `writeFailed` record I/O errors. */
  datatype State = State(
    unread: string,
    reader: Reader,
    chan: seq<string>,
    writer: Writer,
    out: string,
    readFailed: bool,
    writeFailed: bool)

  // ----- steps

  /** What read_line takes: up to and including the first newline, or everything. */
  function LineLength(s: string): (n: nat)
    requires s != ""
    ensures 1 <= n <= |s|
    ensures forall i :: 0 <= i < n - 1 ==> s[i] != '\n'
    ensures n < |s| ==> s[n - 1] == '\n'
  {
    if s[0] == '\n' || |s| == 1 then 1 else 1 + LineLength(s[1..])
  }

  ghost predicate Init(s: State, input: string) {
    s == State(input, Reading, [], Receiving, "", false, false)
  }

  /** The last character is popped whether or not it is a newline. */
  ghost predicate ReadLine(s: State, s': State) {
    && s.reader.Reading? && s.unread != ""
    && var n := LineLength(s.unread);
       s' == s.(unread := s.unread[n..], reader := Sending(s.unread[..n - 1]))
  }

  ghost predicate ReadEof(s: State, s': State) {
    s.reader.Reading? && s.unread == "" && s' == s.(reader := ReaderStopped)
  }

  ghost predicate ReadError(s: State, s': State) {
    s.reader.Reading? && s' == s.(reader := ReaderStopped, readFailed := true)
  }

  ghost predicate Send(s: State, s': State) {
    && s.reader.Sending? && !s.writer.WriterStopped? && |s.chan| < CAPACITY
    && s' == s.(chan := s.chan + [s.reader.line], reader := Reading)
  }

  ghost predicate SendClosed(s: State, s': State) {
    s.reader.Sending? && s.writer.WriterStopped? && s' == s.(reader := ReaderStopped)
  }

  ghost predicate ReaderStep(s: State, s': State) {
    ReadLine(s, s') || ReadEof(s, s') || ReadError(s, s') || Send(s, s') || SendClosed(s, s')
  }

  ghost predicate Recv(s: State, s': State) {
    s.writer.Receiving? && s.chan != [] && s' == s.(chan := s.chan[1..], writer := Writing(s.chan[0] + "\n"))
  }

  ghost predicate RecvClosed(s: State, s': State) {
    s.writer.Receiving? && s.chan == [] && s.reader.ReaderStopped? && s' == s.(writer := WriterStopped)
  }

  ghost predicate Write(s: State, s': State) {
    s.writer.Writing? && s' == s.(out := s.out + s.writer.text, writer := Receiving)
  }

  /** A failing write may already have handed over any prefix of the line. */
  ghost predicate WriteError(s: State, s': State, k: nat) {
    && s.writer.Writing? && k <= |s.writer.text|
    && s' == s.(out := s.out + s.writer.text[..k], writer := WriterStopped, chan := [], writeFailed := true)
  }

  ghost predicate WriterStep(s: State, s': State) {
    Recv(s, s') || RecvClosed(s, s') || Write(s, s') || exists k :: WriteError(s, s', k)
  }

  ghost predicate Next(s: State, s': State) {
    ReaderStep(s, s') || WriterStep(s, s')
  }

  ghost predicate Run(run: seq<State>, input: string) {
    && 0 < |run| && Init(run[0], input)
    && forall k :: 0 <= k < |run| - 1 ==> Next(run[k], run[k + 1])
  }

  // ----- conservation

  /** The echo of a whole input: its last character replaced by a newline. */
  function Echo(s: string): string {
    if s == "" then "" else s[..|s| - 1] + "\n"
  }

  lemma EchoConcat(a: string, b: string)
    requires b != ""
    ensures Echo(a + b) == a + Echo(b)
  {
    assert (a + b)[..|a + b| - 1] == a + b[..|b| - 1];
  }

  lemma EchoOfLine(s: string)
    requires s != ""
    ensures var n := LineLength(s); Echo(s) == s[..n - 1] + "\n" + Echo(s[n..])
  {
    var n := LineLength(s);
    hide LineLength;
    if n < |s| {
      EchoAfter(s, n);
    }
  }

  lemma EchoAfter(s: string, n: nat)
    requires 0 < n < |s| && s[n - 1] == '\n'
    ensures Echo(s) == s[..n - 1] + "\n" + Echo(s[n..])
  {
    hide Echo;
    EchoConcat(s[..n], s[n..]);
    assert s == s[..n] + s[n..];
    assert s[..n] == s[..n - 1] + "\n";
  }

  function Joined(lines: seq<string>): string {
    if lines == [] then "" else lines[0] + "\n" + Joined(lines[1..])
  }

  lemma {:induction false} JoinedSnoc(lines: seq<string>, l: string)
    ensures Joined(lines + [l]) == Joined(lines) + l + "\n"
  {
    if lines == [] {
      assert [l][1..] == [];
    } else {
      JoinedSnoc(lines[1..], l);
      assert (lines + [l])[1..] == lines[1..] + [l];
    }
  }

  function WriterText(s: State): string { if s.writer.Writing? then s.writer.text else "" }

  function ReaderText(s: State): string { if s.reader.Sending? then s.reader.line + "\n" else "" }

  /** Everything read so far, in order: handed over, being written, queued, about to be queued. */
  function ReadSoFar(s: State): string {
    s.out + WriterText(s) + Joined(s.chan) + ReaderText(s)
  }

  ghost predicate Inv(s: State, input: string) {
    && |s.chan| <= CAPACITY
    && s.out <= Echo(input)
    && (s.readFailed ==> s.reader.ReaderStopped?)
    && (s.writeFailed ==> s.writer.WriterStopped?)
    && (!s.writeFailed ==> ReadSoFar(s) <= Echo(input))
    && (!s.writeFailed && !s.readFailed ==> ReadSoFar(s) + Echo(s.unread) == Echo(input))
    && (s.writer.WriterStopped? ==> s.chan == [])
    && (s.writer.WriterStopped? && !s.writeFailed ==> s.reader.ReaderStopped?)
    && (s.reader.ReaderStopped? && !s.writeFailed && !s.readFailed ==> s.unread == "")
  }

  /** A line moves from the unread input into the pipeline. */
  lemma ReadLineConserves(s: State, s': State)
    requires ReadLine(s, s')
    ensures ReadSoFar(s') + Echo(s'.unread) == ReadSoFar(s) + Echo(s.unread)
  {
    var before := s.out + WriterText(s) + Joined(s.chan);
    EchoOfLine(s.unread);
    hide Echo, Joined, WriterText, LineLength;
    assert ReadSoFar(s) == before && ReadSoFar(s') == before + (s'.reader.line + "\n");
    assert before + (s'.reader.line + "\n") + Echo(s'.unread) == before + (s'.reader.line + "\n" + Echo(s'.unread));
  }

  lemma SendConserves(s: State, s': State)
    requires Send(s, s')
    ensures ReadSoFar(s') == ReadSoFar(s)
  {
    hide Joined;
    JoinedSnoc(s.chan, s.reader.line);
    var before := s.out + WriterText(s);
    assert before + (Joined(s.chan) + s.reader.line + "\n") + "" == before + Joined(s.chan) + (s.reader.line + "\n");
  }

  lemma RecvConserves(s: State, s': State)
    requires Recv(s, s')
    ensures ReadSoFar(s') == ReadSoFar(s)
  {
  }

  lemma WriteConserves(s: State, s': State)
    requires Write(s, s')
    ensures ReadSoFar(s') == ReadSoFar(s)
  {
  }

  lemma OutComesFirst(s: State)
    ensures s.out + WriterText(s) <= ReadSoFar(s) && s.out <= ReadSoFar(s)
  {
  }

  lemma ReaderKeepsInv(s: State, s': State, input: string)
    requires Inv(s, input) && ReaderStep(s, s')
    ensures Inv(s', input)
  {
    if ReadLine(s, s') {
      ReadLineConserves(s, s');
    } else if Send(s, s') {
      SendConserves(s, s');
    } else if !SendClosed(s, s') {
      assert ReadSoFar(s') == ReadSoFar(s);
      assert s.unread == "" ==> Echo(s.unread) == "";
    }
    hide ReadSoFar, Echo, LineLength;
  }

  lemma WriterKeepsInv(s: State, s': State, input: string)
    requires Inv(s, input) && WriterStep(s, s')
    ensures Inv(s', input)
  {
    hide Joined, Echo, LineLength;
    OutComesFirst(s);
    OutComesFirst(s');
    if Recv(s, s') {
      RecvConserves(s, s');
    } else if Write(s, s') {
      WriteConserves(s, s');
    } else if RecvClosed(s, s') {
      assert ReadSoFar(s') == ReadSoFar(s);
    } else {
      assert s'.out <= s.out + s.writer.text;
    }
    hide ReadSoFar;
  }

  lemma {:induction false} RunInv(run: seq<State>, input: string, k: nat)
    requires Run(run, input) && k < |run|
    ensures Inv(run[k], input)
  {
    if k > 0 {
      RunInv(run, input, k - 1);
      if ReaderStep(run[k - 1], run[k]) {
        ReaderKeepsInv(run[k - 1], run[k], input);
      } else {
        WriterKeepsInv(run[k - 1], run[k], input);
      }
    } else {
      assert ReadSoFar(run[0]) == "";
    }
  }

  /**
    Without I/O errors nothing is lost, repeated or reordered at any moment; with them, what was handed over is
    still the beginning of the right answer.  The channel never holds more than 100 lines, and none once the
    writer has stopped.
   */
  lemma EchoConserved(run: seq<State>, input: string, k: nat)
    requires Run(run, input) && k < |run|
    ensures var s := run[k];
            && |s.chan| <= 100 && (s.writer.WriterStopped? ==> s.chan == [])
            && s.out <= Echo(input)
            && (!s.readFailed && !s.writeFailed ==>
                  s.out + WriterText(s) + Joined(s.chan) + ReaderText(s) + Echo(s.unread) == Echo(input))
  {
    RunInv(run, input, k);
  }

  // ----- one message is one line

  /** The lines of an input, without their newlines; the last one loses its last character even if that is no newline. */
  function Lines(s: string): (ls: seq<string>)
    ensures s != "" ==> ls != []
  {
    if s == "" then []
    else if |s| == 1 then [""]
    else
      var rest := Lines(s[1..]);
      if s[0] == '\n' then [""] + rest else [[s[0]] + rest[0]] + rest[1..]
  }

  predicate NoNewline(l: string) { '\n' !in l }

  lemma LongerFirstLine(c: char, ls: seq<string>)
    requires ls != [] && c != '\n' && forall l :: l in ls ==> NoNewline(l)
    ensures var ls' := [[c] + ls[0]] + ls[1..]; Joined(ls') == [c] + Joined(ls) && forall l :: l in ls' ==> NoNewline(l)
  {
    var rest := ls[1..];
    JoinedCons([c] + ls[0], rest);
    assert ls == [ls[0]] + rest;
    JoinedCons(ls[0], rest);
    hide Joined;
    Regroup([c], ls[0], "\n", Joined(rest));
    NoNewlines(c, ls);
  }

  lemma NoNewlines(c: char, ls: seq<string>)
    requires ls != [] && c != '\n' && forall l :: l in ls ==> NoNewline(l)
    ensures forall l :: l in [[c] + ls[0]] + ls[1..] ==> NoNewline(l)
  {
    forall l | l in [[c] + ls[0]] + ls[1..]
      ensures NoNewline(l)
    {
      assert l == [c] + ls[0] || l in ls;
      assert NoNewline(ls[0]);
    }
  }

  lemma JoinedCons(l: string, ls: seq<string>)
    ensures Joined([l] + ls) == l + "\n" + Joined(ls)
  {
    assert ([l] + ls)[1..] == ls;
  }

  lemma Regroup<T>(a: seq<T>, b: seq<T>, c: seq<T>, d: seq<T>)
    ensures a + b + c + d == a + (b + c + d) && a + b + c == a + (b + c)
  {
  }

  /** The two properties that say what Lines is; LinesAreUnique says that there is no other list with both. */
  lemma {:induction false} LinesSplit(s: string)
    ensures Joined(Lines(s)) == Echo(s) && forall l :: l in Lines(s) ==> NoNewline(l)
  {
    if |s| > 1 {
      var rest := Lines(s[1..]);
      LinesSplit(s[1..]);
      EchoConcat([s[0]], s[1..]);
      assert [s[0]] + s[1..] == s;
      hide Echo;
      if s[0] == '\n' {
        assert ([""] + rest)[1..] == rest;
      } else {
        LongerFirstLine(s[0], rest);
      }
    } else if |s| == 1 {
      assert [""][1..] == [];
    }
  }

  lemma {:induction false} LinesAreUnique(a: seq<string>, b: seq<string>)
    requires Joined(a) == Joined(b)
    requires (forall l :: l in a ==> NoNewline(l)) && (forall l :: l in b ==> NoNewline(l))
    ensures a == b
    decreases |a|
  {
    if a != [] && b != [] {
      assert a[0] in a && b[0] in b;
      SameFirstLine(a[0], Joined(a[1..]), b[0], Joined(b[1..]));
      LinesAreUnique(a[1..], b[1..]);
    }
  }

  lemma SameFirstLine(p: string, s: string, q: string, t: string)
    requires NoNewline(p) && NoNewline(q) && p + "\n" + s == q + "\n" + t
    ensures p == q && s == t
  {
    if |p| < |q| {
      NewlineTells(p, s, q, t);
    } else if |q| < |p| {
      NewlineTells(q, t, p, s);
    } else {
      assert p == (p + "\n" + s)[..|p|] && q == (q + "\n" + t)[..|p|];
      assert s == (p + "\n" + s)[|p| + 1..] && t == (q + "\n" + t)[|p| + 1..];
    }
  }

  lemma NewlineTells(p: string, s: string, q: string, t: string)
    requires NoNewline(q) && |p| < |q|
    ensures p + "\n" + s != q + "\n" + t
  {
    assert (p + "\n" + s)[|p|] == '\n' && (q + "\n" + t)[|p|] == q[|p|];
  }

  /** A read takes the first line. */
  lemma {:induction false} ReadTakesLine(s: string)
    requires s != ""
    ensures var n := LineLength(s); Lines(s) == [s[..n - 1]] + Lines(s[n..])
  {
    if |s| > 1 && s[0] != '\n' {
      ReadTakesLine(s[1..]);
      var n := LineLength(s[1..]);
      assert s[1..][n..] == s[n + 1..];
      assert [s[0]] + s[1..][..n - 1] == s[..n];
    }
  }

  function WritingLine(s: State): seq<string> {
    if s.writer.Writing? && s.writer.text != "" then [s.writer.text[..|s.writer.text| - 1]] else []
  }

  function SendingLine(s: State): seq<string> { if s.reader.Sending? then [s.reader.line] else [] }

  /** n lines of the input have been handed over whole; the pipeline and the unread input hold the others, in order. */
  ghost predicate LineInv(s: State, lines: seq<string>, n: nat) {
    && n <= |lines| && s.out == Joined(lines[..n])
    && (s.writer.Writing? ==> s.writer.text != "" && s.writer.text[|s.writer.text| - 1] == '\n')
    && WritingLine(s) + s.chan + SendingLine(s) + Lines(s.unread) == lines[n..]
  }

  lemma ReadKeepsLines(s: State, s': State, lines: seq<string>, n: nat)
    requires LineInv(s, lines, n) && ReadLine(s, s')
    ensures LineInv(s', lines, n)
  {
    hide Lines, LineLength, Joined;
    ReadTakesLine(s.unread);
    TakenOver(WritingLine(s) + s.chan, [s'.reader.line], Lines(s'.unread));
  }

  lemma TakenOver<T>(a: seq<T>, b: seq<T>, c: seq<T>)
    ensures a + [] + (b + c) == a + b + c
  {
  }

  lemma SendKeepsLines(s: State, s': State, lines: seq<string>, n: nat)
    requires LineInv(s, lines, n) && Send(s, s')
    ensures LineInv(s', lines, n)
  {
    hide Lines, Joined;
    assert WritingLine(s) + s.chan + [s.reader.line] == WritingLine(s') + s'.chan + [];
  }

  lemma RecvKeepsLines(s: State, s': State, lines: seq<string>, n: nat)
    requires LineInv(s, lines, n) && Recv(s, s')
    ensures LineInv(s', lines, n)
  {
    hide Lines, Joined;
    assert (s.chan[0] + "\n")[..|s.chan[0]|] == s.chan[0];
    assert [] + s.chan == WritingLine(s') + s'.chan;
  }

  lemma WriteKeepsLines(s: State, s': State, lines: seq<string>, n: nat)
    requires LineInv(s, lines, n) && Write(s, s')
    ensures LineInv(s', lines, n + 1)
  {
    hide Joined, Lines;
    var l := s.writer.text[..|s.writer.text| - 1];
    assert WritingLine(s) == [l] && WritingLine(s') == [];
    Regroup([l], s.chan, SendingLine(s), Lines(s.unread));
    NextOf(lines, n, l, s.chan + SendingLine(s) + Lines(s.unread));
    JoinedSnoc(lines[..n], l);
    assert s.writer.text == l + "\n";
    Regroup(s.out, l, "\n", "");
    assert [] + s.chan == s.chan;
  }

  lemma NextOf(lines: seq<string>, n: nat, l: string, rest: seq<string>)
    requires n <= |lines| && lines[n..] == [l] + rest
    ensures n < |lines| && lines[..n + 1] == lines[..n] + [l] && lines[n + 1..] == rest
  {
    assert lines[n..][0] == l && lines[n..][1..] == rest;
  }

  /**
    Until a write fails, the messages are the lines of the input, one by one: n lines have been handed over,
    each with its newline, and the line being written, the channel, the line being sent and the lines not
    yet read are lines n, n + 1 and so on.
   */
  lemma {:induction false} LinesInOrder(run: seq<State>, input: string, k: nat) returns (n: nat)
    requires Run(run, input) && k < |run| && !run[k].writeFailed
    ensures LineInv(run[k], Lines(input), n)
  {
    if k == 0 {
      n := 0;
      assert Lines(input)[..0] == [];
    } else {
      var s, s' := run[k - 1], run[k];
      assert Next(s, s') && !s.writeFailed;
      n := LinesInOrder(run, input, k - 1);
      RunInv(run, input, k - 1);
      hide Run, Lines, LineInv, LineLength, Joined, Echo, ReadSoFar;
      if ReadLine(s, s') {
        ReadKeepsLines(s, s', Lines(input), n);
      } else if Send(s, s') {
        SendKeepsLines(s, s', Lines(input), n);
      } else if Recv(s, s') {
        RecvKeepsLines(s, s', Lines(input), n);
      } else if Write(s, s') {
        WriteKeepsLines(s, s', Lines(input), n);
        n := n + 1;
      } else {
        StopKeepsLines(s, s', Lines(input), n);
      }
    }
  }

  lemma StopKeepsLines(s: State, s': State, lines: seq<string>, n: nat)
    requires LineInv(s, lines, n) && (ReadEof(s, s') || ReadError(s, s') || RecvClosed(s, s'))
    ensures LineInv(s', lines, n)
  {
    hide Lines, Joined;
  }

  /** In every run, with or without errors, no message in the channel or on its way there contains a newline. */
  lemma {:induction false} MessagesAreLines(run: seq<State>, input: string, k: nat)
    requires Run(run, input) && k < |run|
    ensures (forall l :: l in run[k].chan ==> NoNewline(l)) && (run[k].reader.Sending? ==> NoNewline(run[k].reader.line))
  {
    if k > 0 {
      MessagesAreLines(run, input, k - 1);
      assert Next(run[k - 1], run[k]);
    }
  }

  /** With a line to send the reader waits exactly while 100 lines are queued and the writer is still there. */
  lemma SenderWaits(s: State)
    requires s.reader.Sending?
    ensures (exists s' :: ReaderStep(s, s')) <==> s.writer.WriterStopped? || |s.chan| < 100
  {
    if s.writer.WriterStopped? {
      assert SendClosed(s, s.(reader := ReaderStopped));
      assert ReaderStep(s, s.(reader := ReaderStopped));
    } else if |s.chan| < 100 {
      assert Send(s, s.(chan := s.chan + [s.reader.line], reader := Reading));
      assert ReaderStep(s, s.(chan := s.chan + [s.reader.line], reader := Reading));
    }
  }

  predicate Finished(s: State) {
    s.reader.ReaderStopped? && s.writer.WriterStopped?
  }

  /** A finished run without errors has echoed the input, exactly so when the input is empty or ends in a newline. */
  lemma EchoComplete(run: seq<State>, input: string)
    requires Run(run, input)
    requires var s := run[|run| - 1]; Finished(s) && !s.readFailed && !s.writeFailed
    ensures run[|run| - 1].out == Echo(input)
    ensures run[|run| - 1].out == input <==> input == "" || input[|input| - 1] == '\n'
  {
    RunInv(run, input, |run| - 1);
    var s := run[|run| - 1];
    assert ReadSoFar(s) + Echo(s.unread) == s.out;
    if input != "" {
      assert input == input[..|input| - 1] + [input[|input| - 1]];
    }
  }

  // ----- shutdown

  function WriterMeasure(s: State): nat {
    2 * |s.chan| + match s.writer { case Receiving => 1 case Writing(_) => 2 case WriterStopped => 0 }
  }

  function Measure(s: State): nat {
    5 * |s.unread| + WriterMeasure(s) + match s.reader { case Reading => 1 case Sending(_) => 4 case ReaderStopped => 0 }
  }

  lemma StepDecreases(s: State, s': State)
    requires Next(s, s')
    ensures Measure(s') < Measure(s)
    ensures s.reader.ReaderStopped? ==> s'.reader.ReaderStopped? && WriterMeasure(s') < WriterMeasure(s)
  {
  }

  /** Every run ends: its length is bounded by the input. */
  lemma {:induction false} RunsEnd(run: seq<State>, input: string, k: nat)
    requires Run(run, input) && k < |run|
    ensures k + Measure(run[k]) <= 5 * |input| + 2
  {
    if k > 0 {
      RunsEnd(run, input, k - 1);
      StepDecreases(run[k - 1], run[k]);
    }
  }

  /** An error may strike any read, and any write, with any beginning of the line handed over. */
  lemma ErrorsMayStrike(s: State, k: nat)
    ensures s.reader.Reading? ==> ReaderStep(s, s.(reader := ReaderStopped, readFailed := true))
    ensures s.writer.Writing? && k <= |s.writer.text| ==>
              exists s' :: WriterStep(s, s') && s'.writeFailed && s'.out == s.out + s.writer.text[..k]
  {
    if s.writer.Writing? && k <= |s.writer.text| {
      var s' := s.(out := s.out + s.writer.text[..k], writer := WriterStopped, chan := [], writeFailed := true);
      assert WriteError(s, s', k);
      assert WriterStep(s, s');
    }
  }

  /** Until both tasks have stopped some task can go on without an error: there is no blocked state. */
  lemma NeverBlocked(run: seq<State>, input: string, k: nat)
    requires Run(run, input) && k < |run| && !Finished(run[k])
    ensures exists s' :: Next(run[k], s') && s'.readFailed == run[k].readFailed && s'.writeFailed == run[k].writeFailed
  {
    hide LineLength;
  }

  /** Once the reader has stopped, at most two writer steps per queued line are left, and one or two for the rest. */
  lemma {:induction false} WriterDrains(run: seq<State>, input: string, k: nat, m: nat)
    requires Run(run, input) && k <= m < |run| && run[k].reader.ReaderStopped?
    ensures run[m].reader.ReaderStopped? && m - k <= 2 * |run[k].chan| + 2
    ensures m - k + WriterMeasure(run[m]) <= WriterMeasure(run[k])
  {
    if m > k {
      WriterDrains(run, input, k, m - 1);
      StepDecreases(run[m - 1], run[m]);
    }
  }

  function ReaderMeasure(s: State): nat {
    match s.reader { case Reading => 2 case Sending(_) => 1 case ReaderStopped => 0 }
  }

  lemma StoppedWriterStays(s: State, s': State)
    requires s.writer.WriterStopped? && Next(s, s')
    ensures s'.writer.WriterStopped? && s'.out == s.out && s'.chan == s.chan && ReaderMeasure(s') < ReaderMeasure(s)
  {
  }

  /**
    Once the writer has stopped nothing more is written or queued, and the reader stops within two steps:
    it may still read one line, but its next send fails.
   */
  lemma {:induction false} ReaderStopsAtNextSend(run: seq<State>, input: string, k: nat, m: nat)
    requires Run(run, input) && k <= m < |run| && run[k].writer.WriterStopped?
    ensures run[m].writer.WriterStopped? && run[m].out == run[k].out && run[m].chan == run[k].chan
    ensures m - k + ReaderMeasure(run[m]) <= ReaderMeasure(run[k]) <= 2
    ensures run[k].reader.Sending? ==> m - k <= 1
    ensures m - k == 2 ==> Finished(run[m])
  {
    if m > k {
      ReaderStopsAtNextSend(run, input, k, m - 1);
      StoppedWriterStays(run[m - 1], run[m]);
    }
  }
}
