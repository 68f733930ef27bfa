/**
 The argument tokenizer of `at_parser.c`: it cuts a line in place by writing NULs into it and returns
 pointers to the pieces. Tokens says which pieces, on strings; Print is what a host would send.
 */
module Tokenizer {
  import opened Words
  import opened LineEditor

  const QUOTE: char := '"'

  predicate Blank(c: char) { c == ' ' || c == '\t' }
  predicate Separates(c: char) { Blank(c) || c == ',' }

  // What a scanning loop looks for.
  datatype Goal = ToQuote | ToSeparator | ToText

  predicate Reached(goal: Goal, c: char)
  {
    match goal
    case ToQuote => c == QUOTE
    case ToSeparator => Separates(c)
    case ToText => !Separates(c)
  }

  // The first index from `i` on where the goal is reached, else the length of the string.
  function Scan(s: string, i: nat, goal: Goal): (r: nat)
    requires i <= |s|
    ensures i <= r <= |s|
    ensures forall k :: i <= k < r ==> !Reached(goal, s[k])
    ensures r < |s| ==> Reached(goal, s[r])
    decreases |s| - i
  {
    if i == |s| || Reached(goal, s[i]) then i else Scan(s, i + 1, goal)
  }

  lemma ScanIs(s: string, i: nat, goal: Goal, r: nat)
    requires i <= r <= |s| && (forall k :: i <= k < r ==> !Reached(goal, s[k])) && (r < |s| ==> Reached(goal, s[r]))
    ensures Scan(s, i, goal) == r
    decreases |s| - i
  {
    if i < r {
      ScanIs(s, i + 1, goal, r);
    }
  }

  // One argument: where its text starts and ends, and where the next one may start.
  datatype Piece = Piece(from: nat, to: nat, next: nat)

  function PieceAt(s: string, at: nat): (p: Piece)
    requires at < |s| && !Separates(s[at])
    ensures at <= p.from <= p.to <= |s| && p.to <= p.next <= |s| && at < p.next
    ensures p.to < |s| ==> p.to < p.next
  {
    if s[at] == QUOTE then
      var close := Scan(s, at + 1, ToQuote);
      Piece(at + 1, close, if close < |s| then close + 1 else close)
    else
      var end := Scan(s, at, ToSeparator);
      Piece(at, end, if end < |s| then end + 1 else end)
  }

  // The first index from `i` on that is not a separator.
  function Start(s: string, i: nat): (r: nat)
    requires i <= |s|
    ensures i <= r <= |s| && (r < |s| ==> !Separates(s[r]))
  {
    Scan(s, i, ToText)
  }

  // The arguments of the line from `i` on, at most `max`.
  function TokensFrom(s: string, i: nat, max: nat): (args: seq<string>)
    requires i <= |s|
    ensures |args| <= max
    decreases max
  {
    var at := Start(s, i);
    if max == 0 || at == |s| then []
    else
      var p := PieceAt(s, at);
      [s[p.from..p.to]] + TokensFrom(s, p.next, max - 1)
  }

  function Tokens(s: string, max: nat): seq<string> { TokensFrom(s, 0, max) }

  // Arguments as a host writes them: in quotes or plain, with commas between them.
  datatype Argument = Quoted(text: string) | Plain(text: string)

  function Written(arg: Argument): string
  {
    if arg.Quoted? then [QUOTE] + arg.text + [QUOTE] else arg.text
  }

  function Print(args: seq<Argument>): string
  {
    if args == [] then []
    else if |args| == 1 then Written(args[0])
    else Written(args[0]) + "," + Print(args[1..])
  }

  // Quotes protect any text without quotes; plain text must not be empty, start with a quote or hold a space, a tab or
  // a comma.
  predicate Writable(arg: Argument)
  {
    && NUL !in arg.text
    && if arg.Quoted? then QUOTE !in arg.text
       else arg.text != "" && arg.text[0] != QUOTE && forall c :: c in arg.text ==> c != ' ' && c != '\t' && c != ','
  }

  predicate AllWritable(args: seq<Argument>) { forall a :: a in args ==> Writable(a) }

  // What may stand between arguments: spaces, tabs and commas.
  ghost predicate Gap(gap: string) { forall c :: c in gap ==> c == ' ' || c == '\t' || c == ',' }

  // Arguments with a gap behind each. Only a quoted argument may be followed by the next one without a gap.
  function Spread(args: seq<Argument>, gaps: seq<string>): string
    requires |gaps| == |args|
  {
    if args == [] then "" else Written(args[0]) + gaps[0] + Spread(args[1..], gaps[1..])
  }

  ghost predicate Spreadable(args: seq<Argument>, gaps: seq<string>)
  {
    && |gaps| == |args| && AllWritable(args)
    && forall i :: 0 <= i < |args| ==> Gap(gaps[i]) && (i + 1 == |args| || args[i].Quoted? || gaps[i] != "")
  }

  function Texts(args: seq<Argument>): seq<string>
  {
    if args == [] then [] else [args[0].text] + Texts(args[1..])
  }

  lemma QuotedPiece(s: string, at: nat, text: string, after: string)
    requires at <= |s| && s[at..] == [QUOTE] + text + [QUOTE] + after && QUOTE !in text
    ensures at < |s| && PieceAt(s, at) == Piece(at + 1, at + 1 + |text|, at + 2 + |text|)
    ensures s[at + 1..at + 1 + |text|] == text && s[at + 2 + |text|..] == after
  {
    hide Scan;
    var rest := s[at..];
    assert forall k :: 0 <= k < |rest| ==> s[at + k] == rest[k];
    assert s[at + 1 + |text|] == QUOTE;
    assert forall k :: at + 1 <= k < at + 1 + |text| ==> s[k] == text[k - at - 1];
    ScanIs(s, at + 1, ToQuote, at + 1 + |text|);
  }

  lemma PlainPiece(s: string, at: nat, text: string, after: string)
    requires at <= |s| && s[at..] == text + after && (after == "" || Separates(after[0]))
    requires text != "" && text[0] != QUOTE && forall c :: c in text ==> !Separates(c)
    ensures at < |s| && !Separates(s[at])
    ensures PieceAt(s, at) == Piece(at, at + |text|, at + |text| + if after == "" then 0 else 1)
    ensures s[at..at + |text|] == text && s[at + |text|..] == after
  {
    hide Scan;
    var rest := s[at..];
    assert forall k :: 0 <= k < |rest| ==> s[at + k] == rest[k];
    assert forall k :: at <= k < at + |text| ==> s[k] == text[k - at];
    ScanIs(s, at, ToSeparator, at + |text|);
  }

  // An argument somewhere in a line, followed by nothing, by a separator, or, in quotes, by anything.
  lemma WrittenPiece(s: string, at: nat, arg: Argument, after: string)
    requires at <= |s| && s[at..] == Written(arg) + after && Writable(arg)
    requires arg.Plain? ==> after == "" || Separates(after[0])
    ensures at < |s| && !Separates(s[at])
    ensures var p, end := PieceAt(s, at), at + |Written(arg)|;
      && s[p.from..p.to] == arg.text && s[end..] == after
      && p.next == if arg.Quoted? || after == "" then end else end + 1
  {
    hide PieceAt;
    if arg.Quoted? {
      QuotedPiece(s, at, arg.text, after);
      assert s[at..][0] == QUOTE;
    } else {
      PlainPiece(s, at, arg.text, after);
    }
  }

  lemma PrintSplits(args: seq<Argument>)
    requires args != []
    ensures Print(args) == Written(args[0]) + if |args| == 1 then "" else "," + Print(args[1..])
    ensures |args| == 1 ==> Print(args[1..]) == ""
  {
  }

  /** Round trip: the tokenizer undoes the printer, whichever way each argument is written, up to its limit. */
  lemma TokensOfPrint(args: seq<Argument>, max: nat)
    requires AllWritable(args)
    ensures Tokens(Print(args), max) == Texts(args)[..Min(|Texts(args)|, max)]
  {
    TokensOfPrintFrom(Print(args), 0, args, 0, max);
  }

  // The same from the middle of a line: a printed list from index `at` on, with only separators before it from `i` on.
  lemma TokensOfPrintFrom(s: string, at: nat, args: seq<Argument>, i: nat, max: nat)
    requires AllWritable(args) && i <= at <= |s| && s[at..] == Print(args)
    requires forall k :: i <= k < at ==> Separates(s[k])
    ensures TokensFrom(s, i, max) == Texts(args)[..Min(|Texts(args)|, max)]
  {
    hide TokensFrom;
    var gaps := PrintSpreads(args);
    TokensOfSpread(s, at, args, gaps, i, max);
  }

  lemma {:induction false} PrintSpreads(args: seq<Argument>) returns (gaps: seq<string>)
    requires AllWritable(args)
    ensures Spreadable(args, gaps) && Spread(args, gaps) == Print(args)
    decreases |args|
  {
    if args == [] {
      gaps := [];
    } else {
      forall a | a in args[1..] ensures Writable(a) {
        assert a in args;
      }
      var rest := PrintSpreads(args[1..]);
      gaps := [if |args| == 1 then "" else ","] + rest;
      assert gaps[1..] == rest;
      forall i | 0 <= i < |args|
        ensures Gap(gaps[i]) && (i + 1 == |args| || args[i].Quoted? || gaps[i] != "")
      {
        assert i > 0 ==> args[i] == args[1..][i - 1] && gaps[i] == rest[i - 1];
      }
      PrintSplits(args);
    }
  }

  lemma SpreadRest(args: seq<Argument>, gaps: seq<string>)
    requires Spreadable(args, gaps) && args != []
    ensures Spreadable(args[1..], gaps[1..]) && Writable(args[0])
    ensures Gap(gaps[0]) && (|args| == 1 || args[0].Quoted? || gaps[0] != "")
  {
    hide Writable, Gap;
    forall a | a in args[1..] ensures Writable(a) {
      assert a in args;
    }
    assert args[0] in args;
  }

  lemma GapSeparates(gap: string)
    requires Gap(gap)
    ensures forall k :: 0 <= k < |gap| ==> Separates(gap[k])
  {
    forall k | 0 <= k < |gap| ensures Separates(gap[k]) {
      assert gap[k] in gap;
    }
  }

  /** The general round trip: arguments with any spaces, tabs and commas between them, from index `at` on, with only
      such before it from `i` on, are tokenized to their texts, up to the limit. */
  lemma {:induction false} TokensOfSpread(
      s: string, at: nat, args: seq<Argument>, gaps: seq<string>, i: nat, max: nat)
    requires Spreadable(args, gaps) && i <= at <= |s| && s[at..] == Spread(args, gaps)
    requires forall k :: i <= k < at ==> Separates(s[k])
    ensures TokensFrom(s, i, max) == Texts(args)[..Min(|Texts(args)|, max)]
    decreases |args|
  {
    hide TokensFrom, PieceAt, Scan, Spread, Spreadable, Gap;
    Lengths(args, gaps);
    if args == [] || max == 0 {
      NothingLeft(s, at, args, gaps, i, max);
    } else {
      SpreadRest(args, gaps);
      var p, next := FirstSpread(s, at, args, gaps);
      OneToken(s, i, at, max);
      TokensOfSpread(s, next, args[1..], gaps[1..], p.next, max - 1);
      FirstOf(Texts(args), TokensFrom(s, p.next, max - 1), max);
    }
  }

  lemma NothingLeft(s: string, at: nat, args: seq<Argument>, gaps: seq<string>, i: nat, max: nat)
    requires |gaps| == |args| && i <= at <= |s| && s[at..] == Spread(args, gaps) && (args == [] || max == 0)
    requires forall k :: i <= k < at ==> Separates(s[k])
    ensures TokensFrom(s, i, max) == []
  {
    if args == [] {
      ScanIs(s, i, ToText, |s|);
    }
  }

  lemma OneToken(s: string, i: nat, at: nat, max: nat)
    requires i <= at < |s| && max > 0 && !Separates(s[at])
    requires forall k :: i <= k < at ==> Separates(s[k])
    ensures var p := PieceAt(s, at); TokensFrom(s, i, max) == [s[p.from..p.to]] + TokensFrom(s, p.next, max - 1)
  {
    hide PieceAt;
    ScanIs(s, i, ToText, at);
  }

  lemma FirstOf<T>(xs: seq<T>, tail: seq<T>, max: nat)
    requires xs != [] && max > 0 && tail == xs[1..][..Min(|xs[1..]|, max - 1)]
    ensures [xs[0]] + tail == xs[..Min(|xs|, max)]
  {
  }

  // The first argument of a list is the next piece, and the others follow behind separators.
  lemma FirstSpread(s: string, at: nat, args: seq<Argument>, gaps: seq<string>) returns (p: Piece, next: nat)
    requires args != [] && Spreadable(args, gaps) && at <= |s| && s[at..] == Spread(args, gaps)
    ensures at < |s| && !Separates(s[at]) && p == PieceAt(s, at) && s[p.from..p.to] == args[0].text
    ensures p.next <= next <= |s| && (forall k :: p.next <= k < next ==> Separates(s[k]))
    ensures |gaps| == |args| && s[next..] == Spread(args[1..], gaps[1..])
  {
    hide PieceAt, Writable, Written, Spreadable, Gap, Separates;
    SpreadRest(args, gaps);
    Lengths(args, gaps);
    GapSeparates(gaps[0]);
    var rest := Spread(args[1..], gaps[1..]);
    var after := gaps[0] + rest;
    var end := at + |Written(args[0])|;
    assert Spread(args, gaps) == Written(args[0]) + after;
    if |args| == 1 {
      OneLeft(args, gaps);
    }
    WrittenPiece(s, at, args[0], after);
    p := PieceAt(s, at);
    next := end + |gaps[0]|;
    assert s[next..] == s[end..][|gaps[0]|..];
    forall k | end <= k < next ensures Separates(s[k]) {
      assert s[k] == s[end..][k - end];
    }
  }

  lemma Lengths(args: seq<Argument>, gaps: seq<string>)
    requires Spreadable(args, gaps)
    ensures |gaps| == |args|
  {
  }

  lemma OneLeft(args: seq<Argument>, gaps: seq<string>)
    requires |gaps| == |args| == 1
    ensures Spread(args[1..], gaps[1..]) == ""
  {
  }

  // The line `s`, NUL-terminated, is still in the buffer from `p` on.
  ghost predicate Intact(work: seq<char>, s: string, p: nat)
  {
    && p <= |s| < |work| && NUL !in s && work[|s|] == NUL
    && forall k :: p <= k < |s| ==> work[k] == s[k]
  }

  // The pointer `at` is that of the NUL-terminated string `arg`.
  ghost predicate Holds(work: seq<char>, at: nat, arg: string)
  {
    && at + |arg| < |work| && NUL !in arg
    && work[at..at + |arg|] == arg && work[at + |arg|] == NUL
  }

  // What Holds says in terms of C strings.
  lemma HoldsCString(work: seq<char>, at: nat, arg: string)
    requires Holds(work, at, arg)
    ensures CString(work[at..]) == arg
  {
    assert work[at..] == arg + [NUL] + work[at + |arg| + 1..];
    CStringOf(arg, work[at + |arg| + 1..]);
  }

  method Seek(work: array<char>, p: nat, goal: Goal, ghost s: string) returns (r: nat)
    requires Intact(work[..], s, p)
    ensures r == Scan(s, p, goal)
  {
    r := p;
    while work[r] != NUL && !Reached(goal, work[r])
      invariant p <= r <= |s| && Scan(s, p, goal) == Scan(s, r, goal)
      decreases |s| - r
    {
      r := r + 1;
    }
  }

  // Ends the argument at `p` with a NUL, unless the line ends there.
  method Cut(work: array<char>, p: nat, ghost s: string) returns (next: nat)
    requires Intact(work[..], s, p)
    modifies work
    ensures next == if p < |s| then p + 1 else p
    ensures work[..] == old(work[..])[p := NUL]
  {
    next := p;
    if work[p] != NUL {
      work[p] := NUL;
      next := p + 1;
    }
  }

  method NextArgument(work: array<char>, p: nat, ghost s: string) returns (arg: nat, next: nat)
    requires Intact(work[..], s, p) && p < |s| && !Separates(s[p])
    modifies work
    ensures var piece := PieceAt(s, p);
      && arg == piece.from && next == piece.next
      && work[..] == old(work[..])[piece.to := NUL]
  {
    if work[p] == QUOTE {
      arg := p + 1;
      var close := Seek(work, p + 1, ToQuote, s);
      next := Cut(work, close, s);
    } else {
      arg := p;
      var end := Seek(work, p, ToSeparator, s);
      next := Cut(work, end, s);
    }
  }

  // The pointers hold the arguments, all of them before `p` or at the end of the line.
  ghost predicate AllHold(work: seq<char>, argv: seq<nat>, args: seq<string>, p: nat, end: nat)
  {
    && |argv| == |args|
    && forall i :: 0 <= i < |argv| ==>
         Holds(work, argv[i], args[i]) && (argv[i] + |args[i]| < p || argv[i] + |args[i]| == end == p)
  }

  // Cutting behind them leaves earlier arguments alone.
  lemma HoldsAfterCut(work: seq<char>, argv: seq<nat>, args: seq<string>, p: nat, end: nat, cut: nat, next: nat)
    requires AllHold(work, argv, args, p, end) && p <= cut < |work| && p <= next <= end
    ensures AllHold(work[cut := NUL], argv, args, next, end)
  {
  }

  lemma TokensSplit(s: string, at: nat, max: nat)
    requires at <= |s| && max > 0 && Start(s, at) < |s|
    ensures var p := PieceAt(s, Start(s, at));
      TokensFrom(s, at, max) == [s[p.from..p.to]] + TokensFrom(s, p.next, max - 1)
  {
  }

  /** The C function: it returns pointers to exactly the arguments that Tokens describes. */
  method Tokenize(work: array<char>, start: nat, max: nat, ghost s: string) returns (argv: seq<nat>)
    requires Intact(work[..], s, start)
    modifies work
    ensures |argv| == |TokensFrom(s, start, max)|
    ensures forall i :: 0 <= i < |argv| ==> Holds(work[..], argv[i], TokensFrom(s, start, max)[i])
  {
    hide PieceAt, Scan, TokensFrom;
    argv := [];
    var p := start;
    ghost var args: seq<string> := [];
    while work[p] != NUL && |argv| < max
      invariant Intact(work[..], s, p) && |argv| <= max
      invariant TokensFrom(s, start, max) == args + TokensFrom(s, p, max - |argv|)
      invariant AllHold(work[..], argv, args, p, |s|)
      decreases |s| - p
    {
      var at := Seek(work, p, ToText, s);
      if work[at] == NUL {
        NoMoreTokens(s, p, max - |argv|);
        return;
      }
      TokensSplit(s, p, max - |argv|);
      ghost var piece := PieceAt(s, at);
      ghost var before := work[..];
      var arg, next := NextArgument(work, at, s);
      HoldsAfterCut(before, argv, args, p, |s|, piece.to, next);
      argv, args := argv + [arg], args + [s[piece.from..piece.to]];
      p := next;
    }
    NoMoreTokens(s, p, max - |argv|);
  }

  lemma NoMoreTokens(s: string, p: nat, max: nat)
    requires p <= |s| && (Start(s, p) == |s| || p == |s| || max == 0)
    ensures TokensFrom(s, p, max) == []
  {
  }
}
