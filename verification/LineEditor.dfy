/**
 The two line editors, g_line_buffer of `at_parser.c` and the one of `cdc_acm.c`: each collects the
 characters of a terminal into a NUL-terminated buffer and submits it at the end of a line.
 Characters are unsigned, as on the target.
 */
module LineEditor {
  import opened Words

  const NUL: char := 0 as char
  const BACKSPACE: char := 8 as char
  const DELETE: char := 127 as char
  const ERASE: string := [BACKSPACE, ' ', BACKSPACE]

  const BUFFER_SIZE := 256
  const MAX_LINE := 255

  predicate EndsLine(c: char) { c == '\r' || c == '\n' }
  predicate Erases(c: char) { c == BACKSPACE || c == DELETE }
  predicate Printable(c: char) { ' ' <= c && c != DELETE }

  // What one character does: the line being edited, and the lines submitted.
  datatype Screen = Screen(line: string, submitted: seq<string>)

  function Feed(s: Screen, c: char): Screen
  {
    if EndsLine(c) then if s.line == [] then s else Screen([], s.submitted + [s.line])
    else if Erases(c) then if s.line == [] then s else s.(line := s.line[..|s.line| - 1])
    else if c < ' ' || |s.line| >= MAX_LINE then s
    else s.(line := s.line + [c])
  }

  function FeedAll(s: Screen, input: string): Screen
    decreases |input|
  {
    if input == [] then s else FeedAll(Feed(s, input[0]), input[1..])
  }

  // What is sent back to the terminal.
  function Echo(line: string, c: char): string
  {
    [c] + if Erases(c) && line != [] then ERASE else []
  }

  // The string in a NUL-terminated buffer.
  function CString(s: string): (r: string)
    ensures |r| <= |s| && r == s[..|r|]
  {
    if s == [] || s[0] == NUL then [] else [s[0]] + CString(s[1..])
  }

  lemma {:induction false} CStringOf(line: string, rest: string)
    requires NUL !in line
    ensures CString(line + [NUL] + rest) == line
  {
    var s := line + [NUL] + rest;
    if line != [] {
      assert s[1..] == line[1..] + [NUL] + rest;
      CStringOf(line[1..], rest);
    }
  }

  // Both editors keep to this.
  ghost predicate Clean(line: string)
  {
    |line| <= MAX_LINE && forall i :: 0 <= i < |line| ==> Printable(line[i])
  }

  lemma FeedClean(s: Screen, c: char)
    requires Clean(s.line) && forall l :: l in s.submitted ==> Clean(l) && l != []
    ensures Clean(Feed(s, c).line) && forall l :: l in Feed(s, c).submitted ==> Clean(l) && l != []
  {
  }

  /** Whatever is typed, the submitted lines are not empty, printable, and at most 255 characters long. */
  lemma {:induction false} SubmittedAreClean(s: Screen, input: string)
    requires Clean(s.line) && forall l :: l in s.submitted ==> Clean(l) && l != []
    ensures var t := FeedAll(s, input);
      Clean(t.line) && forall l :: l in t.submitted ==> Clean(l) && l != []
    decreases |input|
  {
    if input != [] {
      FeedClean(s, input[0]);
      SubmittedAreClean(Feed(s, input[0]), input[1..]);
    }
  }

  lemma {:induction false} FeedJoin(s: Screen, a: string, b: string)
    ensures FeedAll(s, a + b) == FeedAll(FeedAll(s, a), b)
    decreases |a|
  {
    if a == [] {
      assert a + b == b;
    } else {
      assert (a + b)[1..] == a[1..] + b;
      FeedJoin(Feed(s, a[0]), a[1..], b);
    }
  }

  lemma {:induction false} Typing(s: Screen, text: string)
    requires Clean(text) && |s.line| + |text| <= MAX_LINE
    ensures FeedAll(s, text) == s.(line := s.line + text)
    decreases |text|
  {
    if text != [] {
      Typing(Feed(s, text[0]), text[1..]);
      assert s.line + text == (s.line + [text[0]]) + text[1..];
    } else {
      assert s.line + text == s.line;
    }
  }

  // What ends a line: a carriage return, a line feed, or any number of both.
  ghost predicate EndOfLine(end: string) { end != [] && forall c :: c in end ==> c == '\r' || c == '\n' }

  function Typed(lines: seq<string>, ends: seq<string>): string
    requires |ends| == |lines|
  {
    if lines == [] then [] else lines[0] + ends[0] + Typed(lines[1..], ends[1..])
  }

  lemma {:induction false} EndsOnce(s: Screen, end: string)
    requires EndOfLine(end)
    ensures FeedAll(s, end) == Screen([], if s.line == [] then s.submitted else s.submitted + [s.line])
    decreases |end|
  {
    assert end[0] in end && forall c :: c in end[1..] ==> c in end;
    if |end| == 1 {
      assert end[1..] == [];
    } else {
      EndsOnce(Feed(s, end[0]), end[1..]);
    }
  }

  /** Typing printable lines, each ended by a carriage return, a line feed or both, submits exactly these lines. */
  lemma {:induction false} TypedLinesArrive(submitted: seq<string>, lines: seq<string>, ends: seq<string>)
    requires |ends| == |lines| && (forall l :: l in lines ==> Clean(l) && l != [])
    requires forall e :: e in ends ==> EndOfLine(e)
    ensures FeedAll(Screen([], submitted), Typed(lines, ends)) == Screen([], submitted + lines)
    decreases |lines|
  {
    hide Clean, EndOfLine, Feed;
    var s := Screen([], submitted);
    if lines == [] {
      assert submitted + lines == submitted;
    } else {
      var l, e, rest := lines[0], ends[0], Typed(lines[1..], ends[1..]);
      CleanFits(l);
      Typing(s, l);
      assert [] + l == l;
      FeedJoin(s, l, e + rest);
      assert l + (e + rest) == Typed(lines, ends);
      FeedJoin(Screen(l, submitted), e, rest);
      EndsOnce(Screen(l, submitted), e);
      TypedLinesArrive(submitted + [l], lines[1..], ends[1..]);
      assert submitted + lines == (submitted + [l]) + lines[1..];
    }
  }

  lemma CleanFits(line: string)
    requires Clean(line)
    ensures |line| <= MAX_LINE
  {
  }

  /** An erasing character undoes the character before it, unless that one was dropped for lack of room. */
  lemma EraseUndoes(s: Screen, c: char, e: char)
    requires Printable(c) && Erases(e)
    ensures FeedAll(s, [c, e]) == s <==> |s.line| < MAX_LINE
  {
    assert [c, e][1..] == [e] && [e][1..] == [];
    assert FeedAll(Feed(Feed(s, c), e), []) == Feed(Feed(s, c), e);
    assert FeedAll(Feed(s, c), [e]) == Feed(Feed(s, c), e);
    if |s.line| < MAX_LINE {
      assert (s.line + [c])[..|s.line|] == s.line;
    }
  }

  // A terminal with a cursor. A backspace moves the cursor back, unless it is at the start; a printable character is
  // written over what is there; a delete shows nothing.
  datatype Display = Display(cells: string, cursor: nat)

  predicate Sound(d: Display) { d.cursor <= |d.cells| }

  function Put(d: Display, c: char): (e: Display)
    requires Sound(d)
    ensures Sound(e)
  {
    if c == BACKSPACE then Display(d.cells, if d.cursor > 0 then d.cursor - 1 else 0)
    else if !Printable(c) then d
    else Display(d.cells[..d.cursor] + [c] + d.cells[Min(d.cursor + 1, |d.cells|)..], d.cursor + 1)
  }

  function PutAll(d: Display, output: string): (e: Display)
    requires Sound(d)
    ensures Sound(e)
  {
    if output == [] then d else Put(PutAll(d, output[..|output| - 1]), output[|output| - 1])
  }

  // What stands in front of the cursor.
  function InFront(d: Display): string
    requires Sound(d)
  {
    d.cells[..d.cursor]
  }

  lemma PutMore(d: Display, output: string, c: char)
    requires Sound(d)
    ensures PutAll(d, output + [c]) == Put(PutAll(d, output), c) && PutAll(d, []) == d
  {
    hide Put;
    assert (output + [c])[..|output|] == output;
  }

  // The echo of one character, written out.
  lemma PutEcho(d: Display, c: char)
    requires Sound(d)
    ensures PutAll(d, [c]) == Put(d, c)
    ensures PutAll(d, [c] + ERASE) == Put(Put(Put(Put(d, c), BACKSPACE), ' '), BACKSPACE)
  {
    hide Put, PutAll;
    PutMore(d, [], c);
    assert [] + [c] == [c];
    PutMore(d, [c], BACKSPACE);
    PutMore(d, [c] + [BACKSPACE], ' ');
    PutMore(d, [c] + [BACKSPACE] + [' '], BACKSPACE);
    assert [c] + ERASE == [c] + [BACKSPACE] + [' '] + [BACKSPACE];
  }

  /** What the terminal shows: if it shows the line in front of its cursor, the echo of a printable or an erasing
      character makes it show the new line, exactly unless the character was dropped for lack of room, or was a
      backspace in a line of at least two characters: the backspace is echoed itself, and then once more with a
      space. */
  lemma EchoShowsLine(s: Screen, d: Display, c: char)
    requires Sound(d) && InFront(d) == s.line && (Printable(c) || Erases(c))
    ensures InFront(PutAll(d, Echo(s.line, c))) == Feed(s, c).line <==>
      !(Printable(c) && |s.line| >= MAX_LINE) && !(c == BACKSPACE && |s.line| >= 2)
  {
    hide PutAll;
    PutEcho(d, c);
    assert [c] + [] == [c];
  }

  /** The editor of `at_parser.c`. */
  class AtEditor {
    const buffer: array<char>
    var pos: uint16
    var echo: bool
    var output: string
    var submitted: seq<string>

    ghost predicate Valid()
      reads this, buffer
    {
      && buffer.Length == BUFFER_SIZE && pos <= MAX_LINE && Clean(buffer[..pos])
    }

    ghost function Shown(): Screen
      requires Valid()
      reads this, buffer
    {
      Screen(buffer[..pos], submitted)
    }

    constructor ()
      ensures Valid() && Shown() == Screen([], []) && fresh(buffer) && echo
    {
      buffer := new char[BUFFER_SIZE](_ => NUL);
      pos, echo, output, submitted := 0, true, [], [];
    }

    method ProcessChar(c: char)
      requires Valid()
      modifies this, buffer
      ensures Valid() && echo == old(echo)
      ensures Shown() == Feed(old(Shown()), c)
      ensures output == old(output) + if echo then Echo(old(Shown()).line, c) else []
    {
      hide CString;
      if echo {
        output := output + [c];
      }
      if c == '\r' || c == '\n' {
        if pos > 0 {
          Submit();
        }
        return;
      }
      if c == BACKSPACE || c == DELETE {
        if pos > 0 {
          pos := pos - 1;
          if echo {
            output := output + ERASE;
          }
        }
        return;
      }
      if c < ' ' {
        return;
      }
      if pos < BUFFER_SIZE - 1 {
        buffer[pos] := c;
        pos := pos + 1;
      }
    }

    // The end of a line: the parser reads the buffer as a C string.
    method Submit()
      requires Valid() && pos > 0
      modifies `pos, `submitted, buffer
      ensures Valid() && Shown() == Screen([], old(submitted) + [old(Shown()).line])
    {
      CStringOf(buffer[..pos], buffer[pos + 1..]);
      buffer[pos] := NUL;
      assert buffer[..] == buffer[..pos] + [NUL] + buffer[pos + 1..];
      submitted := submitted + [CString(buffer[..])];
      pos := 0;
    }
  }

  /** The editor of `cdc_acm.c`: the same lines, the same echo, and two counters. */
  class CdcEditor {
    const lineBuffer: array<char>
    var linePos: uint16
    var echo: bool
    var output: string
    var submitted: seq<string>
    var linesReceived: uint32
    var bufferOverflows: uint32

    ghost predicate Valid()
      reads this, lineBuffer
    {
      lineBuffer.Length == BUFFER_SIZE && linePos <= MAX_LINE && Clean(lineBuffer[..linePos])
    }

    ghost function Shown(): Screen
      requires Valid()
      reads this, lineBuffer
    {
      Screen(lineBuffer[..linePos], submitted)
    }

    constructor ()
      ensures Valid() && Shown() == Screen([], []) && fresh(lineBuffer) && echo
      ensures linesReceived == 0 == bufferOverflows
    {
      lineBuffer := new char[BUFFER_SIZE](_ => NUL);
      linePos, echo, output, submitted, linesReceived, bufferOverflows := 0, true, [], [], 0, 0;
    }

    method ProcessRxChar(c: char)
      requires Valid()
      modifies this, lineBuffer
      ensures Valid() && echo == old(echo)
      ensures Shown() == Feed(old(Shown()), c)
      ensures output == old(output) + if echo then Echo(old(Shown()).line, c) else []
      ensures linesReceived == Wrap32(old(linesReceived) + |submitted| - |old(submitted)|)
      ensures bufferOverflows ==
        if Printable(c) && |old(Shown()).line| == MAX_LINE then Wrap32(old(bufferOverflows) + 1)
        else old(bufferOverflows)
    {
      hide CString;
      if echo {
        output := output + [c];
      }
      if c == '\r' || c == '\n' {
        if linePos > 0 {
          ProcessLine();
        }
        return;
      }
      if c == BACKSPACE || c == DELETE {
        if linePos > 0 {
          linePos := linePos - 1;
          if echo {
            output := output + ERASE;
          }
        }
        return;
      }
      if c < ' ' {
        return;
      }
      if linePos < BUFFER_SIZE - 1 {
        lineBuffer[linePos] := c;
        linePos := linePos + 1;
      } else {
        bufferOverflows := Wrap32(bufferOverflows + 1);
      }
    }

    method ProcessLine()
      requires Valid() && linePos > 0
      modifies `linePos, `submitted, `linesReceived, lineBuffer
      ensures Valid() && Shown() == Screen([], old(submitted) + [old(Shown()).line])
      ensures linesReceived == Wrap32(old(linesReceived) + 1)
    {
      CStringOf(lineBuffer[..linePos], lineBuffer[linePos + 1..]);
      lineBuffer[linePos] := NUL;
      assert lineBuffer[..] == lineBuffer[..linePos] + [NUL] + lineBuffer[linePos + 1..];
      linesReceived := Wrap32(linesReceived + 1);
      submitted := submitted + [CString(lineBuffer[..])];
      linePos := 0;
    }
  }

  /** The same characters typed into both editors leave the same line in both, and submit the same lines. */
  method TypeIntoBoth(at: AtEditor, cdc: CdcEditor, input: string)
    requires at.Valid() && cdc.Valid() && at.buffer != cdc.lineBuffer && at.Shown() == cdc.Shown()
    modifies at, at.buffer, cdc, cdc.lineBuffer
    ensures at.Valid() && cdc.Valid()
    ensures at.Shown() == cdc.Shown() == FeedAll(old(at.Shown()), input)
  {
    ghost var start := at.Shown();
    for i := 0 to |input|
      invariant at.Valid() && cdc.Valid() && at.Shown() == cdc.Shown()
      invariant FeedAll(start, input) == FeedAll(at.Shown(), input[i..])
    {
      assert input[i..][1..] == input[i + 1..];
      at.ProcessChar(input[i]);
      cdc.ProcessRxChar(input[i]);
    }
  }
}
