/**
 A terminal at the command parser: `at_parser.c` edits the characters that it is fed and processes every line as soon
 as it ends. What the line editor submits is what the dispatcher answers, so the theorems about the two join.
 */
module Terminal {
  import opened Words
  import opened LineEditor
  import opened Tokenizer
  import opened AtParser

  const BLANK_SCREEN := Screen([], [])

  // What the lines come to, one by one.
  function Outcomes(tables: Tables, lines: seq<string>, run: Call -> int): (os: seq<Outcome>)
    ensures |os| == |lines|
  {
    if lines == [] then []
    else Outcomes(tables, lines[..|lines| - 1], run) + [Process(tables, lines[|lines| - 1], run)]
  }

  function CallsOf(os: seq<Outcome>): seq<Call>
  {
    if os == [] then [] else CallsOf(os[..|os| - 1]) + os[|os| - 1].calls
  }

  function RepliesOf(os: seq<Outcome>): seq<Reply>
  {
    if os == [] then [] else RepliesOf(os[..|os| - 1]) + os[|os| - 1].replies
  }

  lemma OutcomesGrow(tables: Tables, lines: seq<string>, line: string, run: Call -> int)
    ensures var os, o := Outcomes(tables, lines, run), Process(tables, line, run);
      && Outcomes(tables, lines + [line], run) == os + [o]
      && CallsOf(os + [o]) == CallsOf(os) + o.calls && RepliesOf(os + [o]) == RepliesOf(os) + o.replies
  {
    hide Process;
    var os, o := Outcomes(tables, lines, run), Process(tables, line, run);
    assert (lines + [line])[..|lines|] == lines && (os + [o])[..|os|] == os;
  }

  lemma NoLines(tables: Tables, run: Call -> int)
    ensures var os := Outcomes(tables, [], run); os == [] && CallsOf(os) == [] && RepliesOf(os) == []
  {
  }

  lemma {:induction false} OutcomesJoin(tables: Tables, lines: seq<string>, more: seq<string>, run: Call -> int)
    ensures var (os, ms, all) :=
      (Outcomes(tables, lines, run), Outcomes(tables, more, run), Outcomes(tables, lines + more, run));
      && CallsOf(all) == CallsOf(os) + CallsOf(ms) && RepliesOf(all) == RepliesOf(os) + RepliesOf(ms)
    decreases |more|
  {
    hide Process, Outcomes, CallsOf, RepliesOf;
    if more == [] {
      NoLines(tables, run);
      assert lines + more == lines;
    } else {
      var front, last := more[..|more| - 1], more[|more| - 1];
      OutcomesJoin(tables, lines, front, run);
      OutcomesGrow(tables, front, last, run);
      OutcomesGrow(tables, lines + front, last, run);
      assert front + [last] == more && lines + front + [last] == lines + more;
    }
  }

  lemma {:induction false} OutcomeAt(tables: Tables, lines: seq<string>, run: Call -> int, i: nat)
    requires i < |lines|
    ensures Outcomes(tables, lines, run)[i] == Process(tables, lines[i], run)
    decreases |lines|
  {
    hide Process;
    if i < |lines| - 1 {
      OutcomeAt(tables, lines[..|lines| - 1], run, i);
    }
  }

  // How many replies are final.
  function Finals(replies: seq<Reply>): nat
  {
    if replies == [] then 0
    else Finals(replies[..|replies| - 1]) + if Final(replies[|replies| - 1]) then 1 else 0
  }

  lemma {:induction false} FinalsJoin(a: seq<Reply>, b: seq<Reply>)
    ensures Finals(a + b) == Finals(a) + Finals(b)
    decreases |b|
  {
    if b == [] {
      assert a + b == a;
    } else {
      FinalsJoin(a, b[..|b| - 1]);
      assert (a + b)[..|a + b| - 1] == a + b[..|b| - 1];
    }
  }

  lemma {:induction false} NoFinals(replies: seq<Reply>)
    requires forall i :: 0 <= i < |replies| ==> !Final(replies[i])
    ensures Finals(replies) == 0
    decreases |replies|
  {
    if replies != [] {
      NoFinals(replies[..|replies| - 1]);
    }
  }

  ghost predicate Spoken(line: string) { exists c :: c in line && !Blank(c) }

  // How many lines are not blank.
  ghost function SpokenLines(lines: seq<string>): nat
  {
    if lines == [] then 0
    else SpokenLines(lines[..|lines| - 1]) + if Spoken(lines[|lines| - 1]) then 1 else 0
  }

  lemma SkipsToText(line: string)
    ensures SkipBlanks(line, 0) < |line| ==> Spoken(line)
  {
    var at := SkipBlanks(line, 0);
    assert at < |line| ==> line[at] in line;
  }

  lemma BlankLine(tables: Tables, line: string, run: Call -> int)
    requires !Spoken(line)
    ensures Process(tables, line, run) == Outcome(ResultOk, [], [])
  {
    SkipsToText(line);
  }

  // A line that is not blank gets one final reply, a blank one none.
  lemma OneLine(tables: Tables, line: string, run: Call -> int)
    ensures var o := Process(tables, line, run);
      && Finals(o.replies) == (if Spoken(line) then 1 else 0) && |o.calls| <= Finals(o.replies)
      && forall c :: c in o.calls ==> Entry(tables, Place(c.table, c.index))
  {
    hide Process;
    var o := Process(tables, line, run);
    if Spoken(line) {
      OneFinalReply(tables, line, run);
      NoFinals(o.replies[..|o.replies| - 1]);
    } else {
      BlankLine(tables, line, run);
    }
  }

  ghost predicate Answered(tables: Tables, lines: seq<string>, os: seq<Outcome>)
  {
    && Finals(RepliesOf(os)) == SpokenLines(lines) && |CallsOf(os)| <= SpokenLines(lines)
    && forall c :: c in CallsOf(os) ==> Entry(tables, Place(c.table, c.index))
  }

  lemma {:induction false} LinesAnswered(tables: Tables, lines: seq<string>, run: Call -> int)
    ensures Answered(tables, lines, Outcomes(tables, lines, run))
    decreases |lines|
  {
    hide Process, Spoken, Entry;
    if lines != [] {
      var front, last := lines[..|lines| - 1], lines[|lines| - 1];
      var os, o := Outcomes(tables, front, run), Process(tables, last, run);
      LinesAnswered(tables, front, run);
      OneLine(tables, last, run);
      assert front + [last] == lines;
      OutcomesGrow(tables, front, last, run);
      FinalsJoin(RepliesOf(os), o.replies);
    }
  }

  /** Whatever is typed, the host gets exactly one final reply for each line submitted that is not blank, and nothing
      final else; at most that many handlers are called, of entries of the tables. */
  lemma TypingIsAnswered(tables: Tables, input: string, run: Call -> int)
    ensures var lines := FeedAll(BLANK_SCREEN, input).submitted;
      Answered(tables, lines, Outcomes(tables, lines, run)) && forall l :: l in lines ==> Clean(l) && l != []
  {
    SubmittedAreClean(BLANK_SCREEN, input);
    LinesAnswered(tables, FeedAll(BLANK_SCREEN, input).submitted, run);
  }

  datatype Command = Command(name: string, args: seq<Argument>)

  function LinesOf(cs: seq<Command>): (lines: seq<string>)
    ensures |lines| == |cs| && forall i :: 0 <= i < |cs| ==> lines[i] == CommandLine(cs[i].name, cs[i].args)
  {
    seq(|cs|, i requires 0 <= i < |cs| => CommandLine(cs[i].name, cs[i].args))
  }

  /** Round trip from the keys to the handlers: typing commands with their arguments, each ended by a return or a line
      feed or both, submits one line for each, and each calls the exec handler of the first entry of its name with these
      arguments, or is refused for the stated reason, in the order typed. */
  lemma TypedCommandsArrive(tables: Tables, cs: seq<Command>, ends: seq<string>, run: Call -> int)
    requires |ends| == |cs| && forall e :: e in ends ==> EndOfLine(e)
    requires forall c :: c in cs ==> Nameable(c.name) && Giveable(c.args) && Clean(CommandLine(c.name, c.args))
    ensures var t := FeedAll(BLANK_SCREEN, Typed(LinesOf(cs), ends));
      && t == Screen([], LinesOf(cs))
      && forall i :: 0 <= i < |cs| ==>
           Arrives(tables, cs[i].name, cs[i].args, Outcomes(tables, t.submitted, run)[i], run)
  {
    hide Arrives, Process, FeedAll, Typed, Outcomes, CommandLine, Clean, EndOfLine, Giveable, Nameable;
    var lines := LinesOf(cs);
    forall l | l in lines ensures Clean(l) && l != [] {
      var i :| 0 <= i < |lines| && lines[i] == l;
      assert cs[i] in cs;
      CommandNotEmpty(cs[i]);
    }
    TypedLinesArrive([], lines, ends);
    assert [] + lines == lines;
    forall i | 0 <= i < |cs| ensures Arrives(tables, cs[i].name, cs[i].args, Outcomes(tables, lines, run)[i], run) {
      assert cs[i] in cs;
      CleanFits(CommandLine(cs[i].name, cs[i].args));
      CommandArrives(tables, cs[i].name, cs[i].args, run);
      OutcomeAt(tables, lines, run, i);
    }
  }

  lemma CommandNotEmpty(c: Command)
    ensures CommandLine(c.name, c.args) != []
  {
    LineIsLong(c.name, "=" + Print(c.args));
  }

  // The lines that a character or some characters submit.
  function NewLines(before: Screen, after: Screen): seq<string>
    requires before.submitted <= after.submitted
  {
    after.submitted[|before.submitted|..]
  }

  lemma FeedSubmits(s: Screen, c: char)
    ensures s.submitted <= Feed(s, c).submitted
    ensures NewLines(s, Feed(s, c)) == if EndsLine(c) && s.line != [] then [s.line] else []
  {
  }

  // What a parser has called and replied.
  datatype Log = Log(tables: Tables, calls: seq<Call>, replies: seq<Reply>)

  function LogOf(parser: Parser): Log
    reads parser
  {
    Log(parser.tables, parser.calls, parser.replies)
  }

  // It has gone through these lines.
  function Processed(log: Log, lines: seq<string>, run: Call -> int): Log
  {
    var os := Outcomes(log.tables, lines, run);
    log.(calls := log.calls + CallsOf(os), replies := log.replies + RepliesOf(os))
  }

  lemma ProcessedNone(log: Log, run: Call -> int)
    ensures Processed(log, [], run) == log
  {
    NoLines(log.tables, run);
  }

  lemma ProcessedJoin(log: Log, lines: seq<string>, more: seq<string>, run: Call -> int)
    ensures Processed(Processed(log, lines, run), more, run) == Processed(log, lines + more, run)
  {
    hide Outcomes, CallsOf, RepliesOf;
    OutcomesJoin(log.tables, lines, more, run);
  }

  // A character at an initialised parser: a line that ends is processed at once.
  function TypeOne(s: Screen, log: Log, c: char, run: Call -> int): (Screen, Log)
  {
    (Feed(s, c), Processed(log, if EndsLine(c) && s.line != [] then [s.line] else [], run))
  }

  function TypeAll(s: Screen, log: Log, input: string, run: Call -> int): (Screen, Log)
    decreases |input|
  {
    if input == [] then (s, log)
    else
      var (t, more) := TypeOne(s, log, input[0], run);
      TypeAll(t, more, input[1..], run)
  }

  /** So what is typed comes to what the lines that it submits come to. */
  lemma {:induction false} TypeAllProcesses(s: Screen, log: Log, input: string, run: Call -> int)
    ensures var t := FeedAll(s, input);
      && s.submitted <= t.submitted
      && TypeAll(s, log, input, run) == (t, Processed(log, NewLines(s, t), run))
    decreases |input|
  {
    hide Processed, Feed;
    if input == [] {
      ProcessedNone(log, run);
    } else {
      var u := Feed(s, input[0]);
      FeedSubmits(s, input[0]);
      TypeAllProcesses(u, Processed(log, NewLines(s, u), run), input[1..], run);
      var t := FeedAll(s, input);
      ProcessedJoin(log, NewLines(s, u), NewLines(u, t), run);
      assert NewLines(s, u) + NewLines(u, t) == NewLines(s, t);
    }
  }

  /** at_parser_process_char */
  method TypeChar(editor: AtEditor, parser: Parser, c: char, run: Call -> int)
    requires editor.Valid() && parser.initialized
    modifies editor, editor.buffer, parser
    ensures editor.Valid() && parser.initialized
    ensures (editor.Shown(), LogOf(parser)) == TypeOne(old(editor.Shown()), old(LogOf(parser)), c, run)
  {
    hide Process, Feed, Clean, Outcomes, CallsOf, RepliesOf;
    ghost var line := editor.Shown().line;
    FeedSubmits(editor.Shown(), c);
    ProcessedNone(LogOf(parser), run);
    var ended := |editor.submitted|;
    editor.ProcessChar(c);
    if |editor.submitted| > ended {
      CleanLine(line);
      ProcessedOne(LogOf(parser), line, run);
      var r := parser.ProcessLine(editor.submitted[ended], run);
    }
  }

  /** at_parser_process_char on a whole input: the calls and replies are those of the lines that the input submits.
      Without initialisation nothing happens. */
  method Type(editor: AtEditor, parser: Parser, input: string, run: Call -> int)
    requires editor.Valid()
    modifies editor, editor.buffer, parser
    ensures editor.Valid() && parser.initialized == old(parser.initialized)
    ensures !parser.initialized ==> editor.Shown() == old(editor.Shown()) && LogOf(parser) == old(LogOf(parser))
    ensures parser.initialized ==>
      var s, t := old(editor.Shown()), editor.Shown();
      && t == FeedAll(s, input) && s.submitted <= t.submitted
      && LogOf(parser) == Processed(old(LogOf(parser)), NewLines(s, t), run)
  {
    if !parser.initialized {
      return;
    }
    hide TypeOne, TypeAll, FeedAll, Clean, Processed, NewLines;
    ghost var start, log := editor.Shown(), LogOf(parser);
    TypeAllProcesses(start, log, input, run);
    assert input[0..] == input;
    for i := 0 to |input|
      invariant editor.Valid() && parser.initialized
      invariant TypeAll(start, log, input, run) == TypeAll(editor.Shown(), LogOf(parser), input[i..], run)
    {
      TypeFirst(editor.Shown(), LogOf(parser), input[i..], run);
      assert input[i..][1..] == input[i + 1..];
      TypeChar(editor, parser, input[i], run);
    }
    TypeNothing(editor.Shown(), LogOf(parser), run);
  }

  lemma TypeFirst(s: Screen, log: Log, input: string, run: Call -> int)
    requires input != []
    ensures var (t, more) := TypeOne(s, log, input[0], run);
      TypeAll(s, log, input, run) == TypeAll(t, more, input[1..], run)
  {
  }

  lemma TypeNothing(s: Screen, log: Log, run: Call -> int)
    ensures TypeAll(s, log, [], run) == (s, log)
  {
  }

  lemma ProcessedOne(log: Log, line: string, run: Call -> int)
    ensures var o := Process(log.tables, line, run);
      Processed(log, [line], run) == log.(calls := log.calls + o.calls, replies := log.replies + o.replies)
  {
    hide Process;
    NoLines(log.tables, run);
    OutcomesGrow(log.tables, [], line, run);
    assert [] + [line] == [line];
  }

  lemma CleanLine(line: string)
    requires Clean(line)
    ensures NUL !in line
  {
  }
}
