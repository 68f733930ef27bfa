/**
 The command dispatcher of `at_parser.c`: which handler a line calls, with which arguments, and what is
 sent back. The handlers themselves are an unknown function from calls to result codes.
 */
module AtParser {
  import opened Words
  import opened LineEditor
  import opened Tokenizer

  const MAX_ARGS := 16
  const MAX_NAME := 31
  const MAX_TABLES := 8
  const CME_NOT_SUPPORTED := 3
  const CME_INVALID_PARAM := 4

  datatype Command = Command(
    name: Option<string>, exec: bool, query: bool, test: bool, minArgs: uint8, maxArgs: uint8)

  type Tables = seq<seq<Command>>

  datatype Place = Place(table: nat, index: nat)

  datatype Handler = Exec | Query | Test

  // A call of a handler of entry `index` of table `table`.
  datatype Call = Call(handler: Handler, table: nat, index: nat, args: seq<string>)

  // What is written to the host; Supported is the default answer to a test command.
  datatype Reply = Fine | Failure | CmeError(code: int) | Supported(name: string)

  datatype Result = ResultOk | ResultError | NotFound | InvalidArgs

  datatype Outcome = Outcome(result: Result, calls: seq<Call>, replies: seq<Reply>)

  function ToUpper(c: char): char
  {
    if 'a' <= c <= 'z' then (c as int - 32) as char else c
  }

  function Upper(s: string): (r: string)
    ensures |r| == |s|
  {
    if s == [] then [] else [ToUpper(s[0])] + Upper(s[1..])
  }

  // Equal, or the two cases of one ASCII letter.
  predicate SameLetter(c: char, d: char)
  {
    || c == d
    || ('a' <= c <= 'z' && 'A' <= d <= 'Z' && c as int - 'a' as int == d as int - 'A' as int)
    || ('A' <= c <= 'Z' && 'a' <= d <= 'z' && c as int - 'A' as int == d as int - 'a' as int)
  }

  // Equal without regard to case.
  ghost predicate SameText(a: string, b: string)
  {
    |a| == |b| && forall i :: 0 <= i < |a| ==> SameLetter(a[i], b[i])
  }

  lemma UpperLetter(c: char, d: char)
    ensures ToUpper(c) == ToUpper(d) <==> SameLetter(c, d)
  {
  }

  lemma {:induction false} UpperAt(s: string, i: nat)
    requires i < |s|
    ensures Upper(s)[i] == ToUpper(s[i])
  {
    if i > 0 {
      UpperAt(s[1..], i - 1);
    }
  }

  /** Two texts have the same upper case exactly if they differ at most in the case of ASCII letters. */
  lemma UpperIsCaseless(a: string, b: string)
    ensures Upper(a) == Upper(b) <==> SameText(a, b)
  {
    hide Upper, ToUpper, SameLetter;
    forall i | 0 <= i < |a| && i < |b| ensures Upper(a)[i] == Upper(b)[i] <==> SameLetter(a[i], b[i]) {
      UpperAt(a, i);
      UpperAt(b, i);
      UpperLetter(a[i], b[i]);
    }
  }

  function Head(s: string, n: nat): string { s[..Min(|s|, n)] }

  // strchr from index `from` on, with the length of the string for a null result.
  function Find(s: string, c: char, from: nat): (r: nat)
    requires from <= |s|
    ensures from <= r <= |s|
    ensures c !in s[from..r] && (r < |s| ==> s[r] == c)
    decreases |s| - from
  {
    if from == |s| || s[from] == c then from
    else
      var r := Find(s, c, from + 1);
      assert s[from..r] == [s[from]] + s[from + 1..r];
      r
  }

  // The part of a line that names the command, up to an equals sign or a question mark and at most 31 characters.
  function RawPart(line: string): (part: string)
    ensures |part| <= |line|
  {
    var head := Head(line, MAX_NAME);
    head[..Min(Find(head, '=', 0), Find(head, '?', 0))]
  }

  function CommandPart(line: string): (part: string)
    ensures |part| <= |line|
  {
    Upper(RawPart(line))
  }

  predicate Matches(c: Command, name: string)
  {
    c.name.Some? && Upper(Head(c.name.value, MAX_NAME)) == Upper(Head(name, MAX_NAME))
  }

  // An entry has this name, without regard to case; both are cut to 31 characters.
  ghost predicate Named(c: Command, name: string)
  {
    c.name.Some? && SameText(Head(c.name.value, MAX_NAME), Head(name, MAX_NAME))
  }

  lemma MatchesIsNamed(c: Command, name: string)
    ensures Matches(c, name) <==> Named(c, name)
  {
    hide Upper, SameText;
    if c.name.Some? {
      UpperIsCaseless(Head(c.name.value, MAX_NAME), Head(name, MAX_NAME));
    }
  }

  // The first matching entry in the order of the tables.
  function Lookup(tables: Tables, t: nat, i: nat, name: string): Option<Place>
    requires t <= |tables| && (t < |tables| ==> i <= |tables[t]|)
    decreases |tables| - t, if t < |tables| then |tables[t]| - i else 0
  {
    if t == |tables| then None
    else if i == |tables[t]| then Lookup(tables, t + 1, 0, name)
    else if Matches(tables[t][i], name) then Some(Place(t, i))
    else Lookup(tables, t, i + 1, name)
  }

  predicate Entry(tables: Tables, at: Place)
  {
    at.table < |tables| && at.index < |tables[at.table]|
  }

  predicate Before(a: Place, b: Place) { a.table < b.table || (a.table == b.table && a.index < b.index) }

  // No entry between two places has this name.
  ghost predicate NoneBetween(tables: Tables, from: Place, to: Place, name: string)
  {
    forall e :: Entry(tables, e) && !Before(e, from) && Before(e, to) ==> !Named(tables[e.table][e.index], name)
  }

  /** The lookup finds the first entry of this name, without regard to the case of ASCII letters, and only fails without
      one. */
  lemma LookupIsFirst(tables: Tables, t: nat, i: nat, name: string)
    requires t <= |tables| && (t < |tables| ==> i <= |tables[t]|)
    ensures match Lookup(tables, t, i, name)
      case Some(at) =>
        && Entry(tables, at) && Named(tables[at.table][at.index], name) && !Before(at, Place(t, i))
        && NoneBetween(tables, Place(t, i), at, name)
      case None => NoneBetween(tables, Place(t, i), Place(|tables|, 0), name)
    decreases |tables| - t, if t < |tables| then |tables[t]| - i else 0
  {
    hide Matches, Named;
    if t < |tables| {
      if i == |tables[t]| {
        LookupIsFirst(tables, t + 1, 0, name);
      } else {
        MatchesIsNamed(tables[t][i], name);
        if !Matches(tables[t][i], name) {
          LookupIsFirst(tables, t, i + 1, name);
        }
      }
    }
  }

  // What the text behind the name asks for: the handler, and where the arguments start, if there are any.
  function Request(line: string): (Handler, Option<nat>)
    requires 3 <= |line|
  {
    var eq, q := Find(line, '=', 3), Find(line, '?', 3);
    if q < eq then (Query, None)
    else if eq == |line| then (Exec, None)
    else if eq + 1 < |line| && line[eq + 1] == '?' then (Test, None)
    else (Exec, Some(eq + 1))
  }

  function Arguments(line: string): seq<string>
    requires 3 <= |line|
  {
    match Request(line).1
    case Some(at) => if at <= |line| then TokensFrom(line, at, MAX_ARGS) else []
    case None => []
  }

  // The end of a command: the result code decides the final reply.
  function Finish(code: int, calls: seq<Call>, replies: seq<Reply>): Outcome
  {
    if code == 0 then Outcome(ResultOk, calls, replies + [Fine])
    else Outcome(ResultError, calls, replies + [CmeError(code)])
  }

  function RunCall(call: Call, run: Call -> int): Outcome { Finish(run(call), [call], []) }

  function Dispatch(tables: Tables, at: Place, handler: Handler, args: seq<string>, run: Call -> int): Outcome
    requires Entry(tables, at)
  {
    var cmd := tables[at.table][at.index];
    match handler
    case Exec =>
      if !cmd.exec then Finish(CME_NOT_SUPPORTED, [], [])
      else if |args| < cmd.minArgs || (cmd.maxArgs > 0 && |args| > cmd.maxArgs) then
        Outcome(InvalidArgs, [], [CmeError(CME_INVALID_PARAM)])
      else RunCall(Call(Exec, at.table, at.index, args), run)
    case Query =>
      if cmd.query then RunCall(Call(Query, at.table, at.index, []), run)
      else if cmd.exec then RunCall(Call(Exec, at.table, at.index, []), run)
      else Finish(CME_NOT_SUPPORTED, [], [])
    case Test =>
      if cmd.test then RunCall(Call(Test, at.table, at.index, []), run)
      else Finish(0, [], [Supported(if cmd.name.Some? then cmd.name.value else "")])
  }

  // ATI, the one command without a plus sign.
  function Information(tables: Tables, run: Call -> int): Outcome
  {
    LookupIsFirst(tables, 0, 0, "I");
    match Lookup(tables, 0, 0, "I")
    case Some(at) =>
      if tables[at.table][at.index].exec then
        var call := Call(Exec, at.table, at.index, []);
        if run(call) == 0 then Outcome(ResultOk, [call], [Fine]) else Outcome(ResultError, [call], [Failure])
      else Outcome(ResultError, [], [Failure])
    case None => Outcome(ResultError, [], [Failure])
  }

  // parse_and_execute, on a line that has been cut to its buffer.
  function Execute(tables: Tables, line: string, run: Call -> int): Outcome
  {
    var part := CommandPart(line);
    if |part| < 2 || part[..2] != "AT" then Outcome(ResultError, [], [Failure])
    else if part == "AT" then Outcome(ResultOk, [], [Fine])
    else if part[2] != '+' then
      if part == "ATI" then Information(tables, run) else Outcome(ResultError, [], [Failure])
    else
      LookupIsFirst(tables, 0, 0, part[3..]);
      match Lookup(tables, 0, 0, part[3..])
      case None => Outcome(NotFound, [], [CmeError(CME_NOT_SUPPORTED)])
      case Some(at) => Dispatch(tables, at, Request(line).0, Arguments(line), run)
  }

  // at_parser_process_line of an initialised parser.
  function Process(tables: Tables, line: string, run: Call -> int): Outcome
  {
    var text := line[SkipBlanks(line, 0)..];
    if text == [] then Outcome(ResultOk, [], []) else Execute(tables, Head(text, MAX_LINE), run)
  }

  function SkipBlanks(s: string, i: nat): (r: nat)
    requires i <= |s|
    ensures i <= r <= |s| && (forall k :: i <= k < r ==> Blank(s[k])) && (r < |s| ==> !Blank(s[r]))
    decreases |s| - i
  {
    if i == |s| || !Blank(s[i]) then i else SkipBlanks(s, i + 1)
  }

  predicate Final(r: Reply) { !r.Supported? }

  // One final reply, the last one, and positive exactly when the result is; at most one call, of an entry.
  ghost predicate Settled(tables: Tables, o: Outcome)
  {
    && o.replies != [] && Final(o.replies[|o.replies| - 1])
    && (forall i :: 0 <= i < |o.replies| - 1 ==> !Final(o.replies[i]))
    && (o.replies[|o.replies| - 1] == Fine <==> o.result == ResultOk)
    && |o.calls| <= 1
    && (forall c :: c in o.calls ==> Entry(tables, Place(c.table, c.index)))
  }

  lemma DispatchSettled(tables: Tables, at: Place, handler: Handler, args: seq<string>, run: Call -> int)
    requires Entry(tables, at)
    ensures Settled(tables, Dispatch(tables, at, handler, args, run))
  {
  }

  lemma ExecuteSettled(tables: Tables, line: string, run: Call -> int)
    ensures Settled(tables, Execute(tables, line, run))
  {
    hide CommandPart, Arguments, Request, Dispatch, Lookup;
    var part := CommandPart(line);
    LookupIsFirst(tables, 0, 0, "I");
    if |part| >= 3 && part[..2] == "AT" && part[2] == '+' {
      LookupIsFirst(tables, 0, 0, part[3..]);
      match Lookup(tables, 0, 0, part[3..])
      case Some(at) => DispatchSettled(tables, at, Request(line).0, Arguments(line), run);
      case None =>
    }
  }

  /** Every line that is not blank gets exactly one final reply, as the last thing sent, and it is the positive
      one exactly when the result is; at most one handler is called, and it belongs to an entry of the tables. */
  lemma OneFinalReply(tables: Tables, line: string, run: Call -> int)
    requires exists c :: c in line && !Blank(c)
    ensures Settled(tables, Process(tables, line, run))
  {
    hide Execute, Settled;
    var at := SkipBlanks(line, 0);
    var k :| 0 <= k < |line| && !Blank(line[k]);
    assert at <= k;
    ExecuteSettled(tables, Head(line[at..], MAX_LINE), run);
  }

  // What a host sends: a name and what it wants.
  function LineOf(name: string, rest: string): string { "AT+" + name + rest }

  // A command with arguments. A question mark right behind the equals sign would make it a test.
  predicate Giveable(args: seq<Argument>)
  {
    AllWritable(args) && !(args != [] && args[0].Plain? && "?" <= args[0].text)
  }

  function CommandLine(name: string, args: seq<Argument>): string { LineOf(name, "=" + Print(args)) }

  predicate Nameable(name: string)
  {
    |name| <= MAX_NAME - 3 && '=' !in name && '?' !in name && NUL !in name
  }

  lemma {:induction false} UpperJoin(a: string, b: string)
    ensures Upper(a + b) == Upper(a) + Upper(b)
  {
    if a == [] {
      assert a + b == b;
    } else {
      assert (a + b)[1..] == a[1..] + b;
      UpperJoin(a[1..], b);
    }
  }

  lemma {:induction false} UpperTwice(s: string)
    ensures Upper(Upper(s)) == Upper(s)
  {
    if s != [] {
      UpperTwice(s[1..]);
      assert Upper(s)[1..] == Upper(s[1..]);
    }
  }

  lemma FindIs(s: string, c: char, from: nat, r: nat)
    requires from <= r <= |s| && c !in s[from..r] && (r < |s| ==> s[r] == c)
    ensures Find(s, c, from) == r
    decreases |s| - from
  {
    if from < r {
      assert s[from] == s[from..r][0];
      assert s[from + 1..r] == s[from..r][1..];
      FindIs(s, c, from + 1, r);
    }
  }

  lemma PrintStarts(args: seq<Argument>)
    requires Giveable(args)
    ensures if args == [] then Print(args) == [] else Print(args) != [] && Print(args)[0] != '?'
  {
    if args != [] {
      PrintSplits(args);
      assert args[0] in args && Written(args[0]) != [];
      assert Print(args)[0] == Written(args[0])[0];
    }
  }

  // The text of a command line, seen by the dispatcher.
  lemma CommandLineParts(name: string, args: seq<Argument>)
    requires Nameable(name) && Giveable(args)
    ensures var line := CommandLine(name, args);
      4 + |name| <= |line| && Request(line) == (Exec, Some(4 + |name|)) && line[4 + |name|..] == Print(args)
  {
    hide Print;
    var line, at := CommandLine(name, args), 3 + |name|;
    assert line[at] == '=' && line[3..at] == name;
    FindIs(line, '=', 3, at);
    assert '?' !in line[3..at + 1];
    assert Find(line, '?', 3) > at;
    PrintStarts(args);
    assert args != [] ==> line[at + 1] == Print(args)[0];
  }

  lemma ShortLineParts(name: string)
    requires Nameable(name)
    ensures Request(LineOf(name, "")) == (Exec, None)
    ensures Request(LineOf(name, "?")) == (Query, None)
    ensures Request(LineOf(name, "=?")) == (Test, None)
  {
    var at := 3 + |name|;
    var bare, query, test := LineOf(name, ""), LineOf(name, "?"), LineOf(name, "=?");
    assert bare[3..at] == query[3..at] == test[3..at] == name;
    FindIs(bare, '=', 3, at);
    FindIs(bare, '?', 3, at);
    FindIs(query, '?', 3, at);
    FindIs(query, '=', 3, at + 1) by {
      assert query[3..at + 1] == name + "?";
    }
    FindIs(test, '=', 3, at);
    FindIs(test, '?', 3, at + 1) by {
      assert test[3..at + 1] == name + "=";
    }
  }

  lemma HeadOfLine(name: string, rest: string)
    requires Nameable(name) && (rest == [] || rest[0] == '=' || rest[0] == '?')
    ensures CommandPart(LineOf(name, rest)) == "AT+" + Upper(name)
  {
    hide Upper, Find;
    var line, at := LineOf(name, rest), 3 + |name|;
    var head := Head(line, MAX_NAME);
    assert head[..at] == "AT+" + name;
    assert '=' !in head[0..at] && '?' !in head[0..at];
    assert at < |head| ==> head[at] == rest[0];
    if at < |head| && rest[0] == '=' {
      FindIs(head, '=', 0, at);
      assert Find(head, '?', 0) >= at;
    } else if at < |head| {
      FindIs(head, '?', 0, at);
      assert Find(head, '=', 0) >= at;
    }
    UpperJoin("AT+", name);
    UpperPrefix();
  }

  lemma UpperPrefix()
    ensures Upper("AT+") == "AT+"
  {
    assert "AT+"[1..] == "T+" && "T+"[1..] == "+" && "+"[1..] == "";
  }

  lemma HeadMatches(c: Command, name: string)
    requires |name| <= MAX_NAME
    ensures Matches(c, Upper(name)) <==> Matches(c, name)
  {
    hide Upper;
    assert Head(name, MAX_NAME) == name && Head(Upper(name), MAX_NAME) == Upper(name);
    UpperTwice(name);
  }

  lemma LookupUpper(tables: Tables, t: nat, i: nat, name: string)
    requires t <= |tables| && (t < |tables| ==> i <= |tables[t]|) && |name| <= MAX_NAME
    ensures Lookup(tables, t, i, Upper(name)) == Lookup(tables, t, i, name)
    decreases |tables| - t, if t < |tables| then |tables[t]| - i else 0
  {
    if t < |tables| {
      if i == |tables[t]| {
        LookupUpper(tables, t + 1, 0, name);
      } else {
        HeadMatches(tables[t][i], name);
        if !Matches(tables[t][i], name) {
          LookupUpper(tables, t, i + 1, name);
        }
      }
    }
  }

  lemma LineIsWhole(name: string, rest: string)
    requires |LineOf(name, rest)| <= MAX_LINE
    ensures var line := LineOf(name, rest);
      SkipBlanks(line, 0) == 0 && line[0..] == line && Head(line, MAX_LINE) == line
  {
  }

  // A line with a name reaches the entry of that name.
  lemma NameArrives(tables: Tables, name: string, rest: string, run: Call -> int)
    requires Nameable(name) && |LineOf(name, rest)| <= MAX_LINE
    requires rest == [] || rest[0] == '=' || rest[0] == '?'
    ensures var line := LineOf(name, rest);
      Process(tables, line, run) ==
        match Lookup(tables, 0, 0, name)
        case None => Outcome(NotFound, [], [CmeError(CME_NOT_SUPPORTED)])
        case Some(at) =>
          (LookupIsFirst(tables, 0, 0, name);
           Dispatch(tables, at, Request(line).0, Arguments(line), run))
  {
    hide CommandPart, Request, Arguments, LineOf, Upper, Dispatch, Lookup;
    var line := LineOf(name, rest);
    HeadOfLine(name, rest);
    LineIsWhole(name, rest);
    LookupUpper(tables, 0, 0, name);
    LookupIsFirst(tables, 0, 0, name);
    assert CommandPart(line)[3..] == Upper(name);
    assert CommandPart(line)[..2] == "AT" && CommandPart(line)[2] == '+';
    assert LineOf(name, rest) != [] by { LineIsLong(name, rest); }
  }

  lemma LineIsLong(name: string, rest: string)
    ensures |LineOf(name, rest)| >= 3
  {
  }

  // A handler was called and its result answered.
  predicate Answers(o: Outcome, call: Call, run: Call -> int)
  {
    && o.calls == [call] && o.replies == [if run(call) == 0 then Fine else CmeError(run(call))]
    && o.result == if run(call) == 0 then ResultOk else ResultError
  }

  // No handler was called.
  predicate Refuses(o: Outcome, result: Result, code: int)
  {
    o.calls == [] && o.replies == [CmeError(code)] && o.result == result
  }

  // The exec handler of the first entry of this name is called with the arguments, if it takes so many.
  ghost predicate Arrives(tables: Tables, name: string, args: seq<Argument>, o: Outcome, run: Call -> int)
  {
    var given := Texts(args)[..Min(|Texts(args)|, MAX_ARGS)];
    match Lookup(tables, 0, 0, name)
    case None => Refuses(o, NotFound, CME_NOT_SUPPORTED)
    case Some(at) =>
      && Entry(tables, at)
      && var c := tables[at.table][at.index];
         if !c.exec then Refuses(o, ResultError, CME_NOT_SUPPORTED)
         else if |given| < c.minArgs || (c.maxArgs > 0 && |given| > c.maxArgs) then
           Refuses(o, InvalidArgs, CME_INVALID_PARAM)
         else Answers(o, Call(Exec, at.table, at.index, given), run)
  }

  /** Round trip: a command with arguments, quoted or plain, reaches the exec handler of the first entry whose name
      matches without regard to case, with exactly these arguments, up to 16, if the entry takes so many; otherwise
      no handler is called, and the reply says why. */
  lemma CommandArrives(tables: Tables, name: string, args: seq<Argument>, run: Call -> int)
    requires Nameable(name) && Giveable(args) && |CommandLine(name, args)| <= MAX_LINE
    ensures Arrives(tables, name, args, Process(tables, CommandLine(name, args), run), run)
  {
    hide Request, Process, LineOf, TokensFrom, Print;
    var line := CommandLine(name, args);
    CommandLineParts(name, args);
    NameArrives(tables, name, "=" + Print(args), run);
    LookupIsFirst(tables, 0, 0, name);
    LineIsLong(name, "=" + Print(args));
    TokensOfPrintFrom(line, 4 + |name|, args, 4 + |name|, MAX_ARGS);
  }

  /** The same for a command without arguments, a query, which the exec handler may answer, and a test, which has a
      default answer. */
  lemma ShortCommandsArrive(tables: Tables, name: string, run: Call -> int)
    requires Nameable(name)
    ensures
      var bare, query, test := Process(tables, LineOf(name, ""), run), Process(tables, LineOf(name, "?"), run),
        Process(tables, LineOf(name, "=?"), run);
      match Lookup(tables, 0, 0, name)
      case None =>
        && Refuses(bare, NotFound, CME_NOT_SUPPORTED) && Refuses(query, NotFound, CME_NOT_SUPPORTED)
        && Refuses(test, NotFound, CME_NOT_SUPPORTED)
      case Some(at) =>
        && Entry(tables, at)
        && var c := tables[at.table][at.index];
           && (if c.exec && c.minArgs == 0 then Answers(bare, Call(Exec, at.table, at.index, []), run)
               else if c.exec then Refuses(bare, InvalidArgs, CME_INVALID_PARAM)
               else Refuses(bare, ResultError, CME_NOT_SUPPORTED))
           && (if c.query then Answers(query, Call(Query, at.table, at.index, []), run)
               else if c.exec then Answers(query, Call(Exec, at.table, at.index, []), run)
               else Refuses(query, ResultError, CME_NOT_SUPPORTED))
           && (if c.test then Answers(test, Call(Test, at.table, at.index, []), run)
               else c.name.Some? && test == Outcome(ResultOk, [], [Supported(c.name.value), Fine]))
  {
    hide Request, Process, LineOf;
    ShortLineParts(name);
    ShortLinesFit(name);
    NameArrives(tables, name, "", run);
    NameArrives(tables, name, "?", run);
    NameArrives(tables, name, "=?", run);
    LookupIsFirst(tables, 0, 0, name);
  }

  lemma ShortLinesFit(name: string)
    requires Nameable(name)
    ensures 3 <= |LineOf(name, "")| <= |LineOf(name, "?")| <= |LineOf(name, "=?")| <= MAX_LINE
  {
  }

  // A line with the prefix and the name in another case, up to some index in front of the first equals sign.
  ghost predicate OtherCase(a: string, b: string, n: nat)
  {
    n <= |a| == |b| && SameText(a[..n], b[..n]) && a[n..] == b[n..] && '=' !in a[..n]
  }

  lemma OtherCaseAt(a: string, b: string, n: nat, i: nat)
    requires OtherCase(a, b, n) && i < |a|
    ensures SameLetter(a[i], b[i]) && (i >= n ==> a[i] == b[i])
    ensures a[i] == '=' <==> b[i] == '='
    ensures a[i] == '?' <==> b[i] == '?'
    ensures a[i] == '+' <==> b[i] == '+'
    ensures Blank(a[i]) <==> Blank(b[i])
  {
    if i < n {
      assert SameLetter(a[..n][i], b[..n][i]);
    } else {
      assert a[i] == a[n..][i - n] && b[i] == b[n..][i - n];
    }
  }

  lemma FindSame(a: string, b: string, n: nat, c: char, from: nat)
    requires OtherCase(a, b, n) && from <= |a| && (c == '=' || c == '?')
    ensures Find(a, c, from) == Find(b, c, from)
    ensures c == '=' ==> Find(a, c, from) >= n || Find(a, c, from) == |a|
  {
    hide SameText, SameLetter;
    var r := Find(a, c, from);
    forall k | from <= k < r ensures b[k] != c {
      OtherCaseAt(a, b, n, k);
      assert a[k] == a[from..r][k - from];
    }
    if r < |a| {
      OtherCaseAt(a, b, n, r);
    }
    assert forall k :: 0 <= k < r - from ==> b[from..r][k] == b[from + k];
    FindIs(b, c, from, r);
    forall k | 0 <= k < n ensures a[k] != '=' {
      assert a[..n][k] == a[k];
    }
  }

  lemma OtherCaseHead(a: string, b: string, n: nat, max: nat)
    requires OtherCase(a, b, n)
    ensures OtherCase(Head(a, max), Head(b, max), Min(n, |Head(a, max)|))
  {
    var u, v := Head(a, max), Head(b, max);
    var m := Min(n, |u|);
    assert forall i :: 0 <= i < m ==> u[..m][i] == a[..n][i] && v[..m][i] == b[..n][i];
    assert forall i :: 0 <= i < |u| - m ==> u[m..][i] == a[m + i] && v[m..][i] == b[m + i];
    forall i | 0 <= i < |u| - m ensures u[m..][i] == v[m..][i] {
      OtherCaseAt(a, b, n, m + i);
    }
  }

  lemma OtherCaseTail(a: string, b: string, n: nat, k: nat)
    requires OtherCase(a, b, n) && k <= |a|
    ensures OtherCase(a[k..], b[k..], if n >= k then n - k else 0)
  {
    if n >= k {
      var m := n - k;
      assert forall i :: 0 <= i < m ==> a[k..][..m][i] == a[..n][k + i] && b[k..][..m][i] == b[..n][k + i];
      assert a[k..][m..] == a[n..] && b[k..][m..] == b[n..];
    } else {
      assert a[k..] == a[n..][k - n..] && b[k..] == b[n..][k - n..];
      assert a[k..][0..] == a[k..] && b[k..][0..] == b[k..];
    }
  }

  lemma PartSame(a: string, b: string, n: nat)
    requires OtherCase(a, b, n)
    ensures CommandPart(a) == CommandPart(b)
  {
    hide Find, Upper, SameLetter, SameText, OtherCase;
    OtherCaseHead(a, b, n, MAX_NAME);
    var u, v := Head(a, MAX_NAME), Head(b, MAX_NAME);
    var m := Min(n, |u|);
    FindSame(u, v, m, '=', 0);
    FindSame(u, v, m, '?', 0);
    SameLengths(u, v, m);
    var end := Min(Find(u, '=', 0), Find(u, '?', 0));
    assert SameText(u[..end], v[..end]) by {
      SameFront(u, v, m, end);
    }
    UpperIsCaseless(u[..end], v[..end]);
  }

  lemma SameLengths(a: string, b: string, n: nat)
    requires OtherCase(a, b, n)
    ensures |a| == |b|
  {
  }

  lemma SameFront(a: string, b: string, n: nat, end: nat)
    requires OtherCase(a, b, n) && end <= |a|
    ensures SameText(a[..end], b[..end])
  {
    forall i | 0 <= i < end ensures SameLetter(a[..end][i], b[..end][i]) {
      OtherCaseAt(a, b, n, i);
    }
  }

  // The arguments depend only on what follows their start.
  lemma {:induction false} TokensSame(a: string, b: string, i: nat, max: nat)
    requires |a| == |b| && i <= |a| && forall k :: i <= k < |a| ==> a[k] == b[k]
    ensures TokensFrom(a, i, max) == TokensFrom(b, i, max)
    decreases max
  {
    hide Start, PieceAt, Separates;
    var at := Start(a, i);
    StartSame(a, b, i);
    if max > 0 && at < |a| {
      PieceSame(a, b, at);
      var p := PieceAt(a, at);
      assert a[p.from..p.to] == b[p.from..p.to];
      TokensSame(a, b, p.next, max - 1);
    }
  }

  lemma StartSame(a: string, b: string, i: nat)
    requires |a| == |b| && i <= |a| && forall k :: i <= k < |a| ==> a[k] == b[k]
    ensures Start(a, i) == Start(b, i)
  {
    hide Scan, Separates;
    ScanIs(b, i, ToText, Start(a, i));
  }

  lemma PieceSame(a: string, b: string, at: nat)
    requires |a| == |b| && at < |a| && !Separates(a[at]) && forall k :: at <= k < |a| ==> a[k] == b[k]
    ensures PieceAt(a, at) == PieceAt(b, at)
  {
    hide Scan;
    ScanIs(b, at + 1, ToQuote, Scan(a, at + 1, ToQuote));
    ScanIs(b, at, ToSeparator, Scan(a, at, ToSeparator));
  }

  lemma ArgumentsSame(a: string, b: string, n: nat)
    requires OtherCase(a, b, n) && 3 <= |a|
    ensures |a| == |b| && Request(a) == Request(b) && Arguments(a) == Arguments(b)
  {
    hide Find, TokensFrom, SameLetter, SameText;
    FindSame(a, b, n, '=', 3);
    FindSame(a, b, n, '?', 3);
    var eq := Find(a, '=', 3);
    if eq < |a| {
      if eq + 1 < |a| {
        assert a[eq + 1] == a[n..][eq + 1 - n] && b[eq + 1] == b[n..][eq + 1 - n];
      }
      forall k | eq + 1 <= k < |a| ensures a[k] == b[k] {
        assert a[k] == a[n..][k - n] && b[k] == b[n..][k - n];
      }
      TokensSame(a, b, eq + 1, MAX_ARGS);
    }
  }

  lemma ExecuteSame(tables: Tables, a: string, b: string, n: nat, run: Call -> int)
    requires OtherCase(a, b, n)
    ensures Execute(tables, a, run) == Execute(tables, b, run)
  {
    hide CommandPart, Request, Arguments, Dispatch, Lookup, Information, OtherCase;
    PartSame(a, b, n);
    if |CommandPart(a)| >= 3 {
      ArgumentsSame(a, b, n);
    }
  }

  lemma BlanksSame(a: string, b: string, n: nat, i: nat)
    requires OtherCase(a, b, n) && i <= |a|
    ensures |a| == |b| && SkipBlanks(a, i) == SkipBlanks(b, i)
    decreases |a| - i
  {
    hide SameText, SameLetter, Blank;
    if i < |a| {
      OtherCaseAt(a, b, n, i);
      BlanksSame(a, b, n, i + 1);
    }
  }

  /** Case does not matter: a line whose prefix and name are written in another case calls the same handler with the
      same arguments and gets the same answer. */
  lemma CaseDoesNotMatter(tables: Tables, a: string, b: string, n: nat, run: Call -> int)
    requires OtherCase(a, b, n)
    ensures Process(tables, a, run) == Process(tables, b, run)
  {
    hide Execute, OtherCase, SkipBlanks;
    BlanksSame(a, b, n, 0);
    var k := SkipBlanks(a, 0);
    var m := if n >= k then n - k else 0;
    OtherCaseTail(a, b, n, k);
    OtherCaseHead(a[k..], b[k..], m, MAX_LINE);
    ExecuteSame(tables, Head(a[k..], MAX_LINE), Head(b[k..], MAX_LINE), Min(m, |Head(a[k..], MAX_LINE)|), run);
  }

  lemma UpperWords()
    ensures Upper("AT") == "AT" && Upper("ATI") == "ATI"
  {
    assert "AT"[1..] == "T" && "T"[1..] == "" && "ATI"[1..] == "TI" && "TI"[1..] == "I" && "I"[1..] == "";
  }

  // What the part in front of an equals sign or a question mark says, in any case.
  lemma PartSays(line: string)
    ensures var (raw, part) := (RawPart(line), CommandPart(line));
      && (part == "AT" <==> SameText(raw, "AT")) && (part == "ATI" <==> SameText(raw, "ATI"))
      && |part| == |raw| && (|raw| >= 2 ==> (part[..2] == "AT" <==> SameText(raw[..2], "AT")))
      && (|raw| >= 3 ==> (part[2] == '+' <==> raw[2] == '+'))
  {
    hide Upper, SameText, Find, RawPart;
    var raw := RawPart(line);
    UpperWords();
    UpperIsCaseless(raw, "AT");
    UpperIsCaseless(raw, "ATI");
    if |raw| >= 2 {
      UpperFront(raw);
      UpperIsCaseless(raw[..2], "AT");
    }
    if |raw| >= 3 {
      UpperAt(raw, 2);
    }
  }

  /** The lines without a name behind a plus sign, in any case: AT is answered with OK; ATI calls the exec handler of
      the first entry I and passes on whether it succeeded; any other such line is refused. */
  lemma PlainLines(tables: Tables, line: string, run: Call -> int)
    requires line != [] && !Blank(line[0])
    ensures var (raw, o) := (RawPart(Head(line, MAX_LINE)), Process(tables, line, run));
      var failure := Outcome(ResultError, [], [Failure]);
      && (SameText(raw, "AT") ==> o == Outcome(ResultOk, [], [Fine]))
      && (SameText(raw, "ATI") ==>
            match Lookup(tables, 0, 0, "I")
            case None => o == failure
            case Some(at) =>
              && Entry(tables, at)
              && var call := Call(Exec, at.table, at.index, []);
                 if !tables[at.table][at.index].exec then o == failure
                 else if run(call) == 0 then o == Outcome(ResultOk, [call], [Fine])
                 else o == Outcome(ResultError, [call], [Failure]))
      && (SameText(raw, "AT") || SameText(raw, "ATI") || o == failure
          || (|raw| >= 3 && SameText(raw[..2], "AT") && raw[2] == '+'))
  {
    hide CommandPart, RawPart, Lookup, Dispatch, SameText;
    LookupIsFirst(tables, 0, 0, "I");
    assert SkipBlanks(line, 0) == 0 && line[0..] == line;
    PartSays(Head(line, MAX_LINE));
    var part := CommandPart(Head(line, MAX_LINE));
    if |part| == 2 {
      assert part[..2] == part;
    }
  }

  lemma UpperFront(s: string)
    requires |s| >= 2
    ensures Upper(s)[..2] == Upper(s[..2])
  {
    hide Upper;
    UpperJoin(s[..2], s[2..]);
    assert s[..2] + s[2..] == s;
  }

  class Parser {
    var tables: Tables
    var initialized: bool
    var calls: seq<Call>
    var replies: seq<Reply>

    constructor ()
      ensures tables == [] && initialized && calls == [] && replies == []
    {
      tables, initialized, calls, replies := [], true, [], [];
    }

    method RegisterCommands(table: seq<Command>) returns (ok: bool)
      modifies `tables
      ensures ok <==> table != [] && |old(tables)| < MAX_TABLES
      ensures tables == if ok then old(tables) + [table] else old(tables)
    {
      if table == [] || |tables| >= MAX_TABLES {
        return false;
      }
      tables := tables + [table];
      return true;
    }

    method FindCommand(name: string) returns (r: Option<Place>)
      ensures r == Lookup(tables, 0, 0, name)
    {
      var upperName := Upper(Head(name, MAX_NAME));
      for t := 0 to |tables|
        invariant Lookup(tables, 0, 0, name) == Lookup(tables, t, 0, name)
      {
        for i := 0 to |tables[t]|
          invariant Lookup(tables, 0, 0, name) == Lookup(tables, t, i, name)
        {
          var entry := tables[t][i];
          if entry.name.Some? && upperName == Upper(Head(entry.name.value, MAX_NAME)) {
            return Some(Place(t, i));
          }
        }
      }
      return None;
    }

    // What the calls, replies and result of a line add up to.
    ghost predicate Added(before: seq<Call>, sent: seq<Reply>, o: Outcome, r: Result)
      reads this
    {
      calls == before + o.calls && replies == sent + o.replies && r == o.result
    }

    method Send(r: Reply)
      modifies `replies
      ensures replies == old(replies) + [r]
    {
      replies := replies + [r];
    }

    method Invoke(call: Call, run: Call -> int) returns (code: int)
      modifies `calls
      ensures calls == old(calls) + [call] && code == run(call)
    {
      calls := calls + [call];
      code := run(call);
    }

    method Conclude(code: int) returns (r: Result)
      modifies `replies
      ensures replies == old(replies) + [if code == 0 then Fine else CmeError(code)]
      ensures r == if code == 0 then ResultOk else ResultError
    {
      if code == 0 {
        Send(Fine);
        r := ResultOk;
      } else {
        Send(CmeError(code));
        r := ResultError;
      }
    }

    // The switch over the kind of command.
    method Serve(at: Place, handler: Handler, args: seq<string>, run: Call -> int) returns (r: Result)
      requires Entry(tables, at)
      modifies `calls, `replies
      ensures Added(old(calls), old(replies), Dispatch(tables, at, handler, args, run), r)
    {
      var cmd := tables[at.table][at.index];
      var code := CME_NOT_SUPPORTED;
      match handler {
        case Exec =>
          if cmd.exec {
            if |args| < cmd.minArgs {
              Send(CmeError(CME_INVALID_PARAM));
              return InvalidArgs;
            }
            if cmd.maxArgs > 0 && |args| > cmd.maxArgs {
              Send(CmeError(CME_INVALID_PARAM));
              return InvalidArgs;
            }
            code := Invoke(Call(Exec, at.table, at.index, args), run);
          }
        case Query =>
          if cmd.query {
            code := Invoke(Call(Query, at.table, at.index, []), run);
          } else if cmd.exec {
            code := Invoke(Call(Exec, at.table, at.index, []), run);
          }
        case Test =>
          if cmd.test {
            code := Invoke(Call(Test, at.table, at.index, []), run);
          } else {
            Send(Supported(if cmd.name.Some? then cmd.name.value else ""));
            code := 0;
          }
      }
      r := Conclude(code);
    }

    method Inform(run: Call -> int) returns (r: Result)
      modifies `calls, `replies
      ensures Added(old(calls), old(replies), Information(tables, run), r)
    {
      LookupIsFirst(tables, 0, 0, "I");
      var found := FindCommand("I");
      if found.Some? && tables[found.value.table][found.value.index].exec {
        var code := Invoke(Call(Exec, found.value.table, found.value.index, []), run);
        if code == 0 {
          Send(Fine);
          return ResultOk;
        }
      }
      Send(Failure);
      return ResultError;
    }

    // The arguments of a line, as the handler reads them through the pointers of the tokenizer.
    method Split(line: string, at: nat) returns (args: seq<string>)
      requires NUL !in line && at <= |line|
      ensures args == TokensFrom(line, at, MAX_ARGS)
    {
      hide TokensFrom, CString;
      var work := new char[|line| + 1](i requires 0 <= i => if i < |line| then line[i] else NUL);
      assert forall k :: 0 <= k < |line| ==> work[k] == line[k];
      ghost var tokens := TokensFrom(line, at, MAX_ARGS);
      var argv := Tokenize(work, at, MAX_ARGS, line);
      args := [];
      for i := 0 to |argv|
        invariant args == tokens[..i]
        invariant forall k :: 0 <= k < |argv| ==> Holds(work[..], argv[k], tokens[k])
      {
        HoldsCString(work[..], argv[i], tokens[i]);
        args := args + [CString(work[..][argv[i]..])];
        assert tokens[..i + 1] == tokens[..i] + [tokens[i]];
      }
      assert tokens[..|argv|] == tokens;
    }

    /** parse_and_execute */
    method ParseAndExecute(line: string, run: Call -> int) returns (r: Result)
      requires NUL !in line
      modifies `calls, `replies
      ensures Added(old(calls), old(replies), Execute(tables, Head(line, MAX_LINE), run), r)
    {
      var work := Head(line, MAX_LINE);
      var part := CommandPart(work);
      if |part| < 2 || part[..2] != "AT" {
        Send(Failure);
        return ResultError;
      }
      if part == "AT" {
        Send(Fine);
        return ResultOk;
      }
      if part[2] != '+' {
        if part == "ATI" {
          r := Inform(run);
          return;
        }
        Send(Failure);
        return ResultError;
      }
      LookupIsFirst(tables, 0, 0, part[3..]);
      var found := FindCommand(part[3..]);
      if found.None? {
        Send(CmeError(CME_NOT_SUPPORTED));
        return NotFound;
      }
      var (handler, start) := Request(work);
      var args := [];
      if start.Some? {
        args := Split(work, start.value);
      }
      r := Serve(found.value, handler, args, run);
    }

    /** at_parser_process_line; `line` is the C string without its NUL. */
    method ProcessLine(line: string, run: Call -> int) returns (r: Result)
      requires NUL !in line
      modifies `calls, `replies
      ensures !initialized ==> r == ResultError && calls == old(calls) && replies == old(replies)
      ensures initialized ==> Added(old(calls), old(replies), Process(tables, line, run), r)
    {
      if !initialized {
        return ResultError;
      }
      var i := 0;
      while i < |line| && Blank(line[i])
        invariant i <= |line| && SkipBlanks(line, 0) == SkipBlanks(line, i)
      {
        i := i + 1;
      }
      if i == |line| {
        return ResultOk;
      }
      r := ParseAndExecute(line[i..], run);
    }
  }
}
