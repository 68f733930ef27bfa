/**
 The sample ring of `i2s_stream.c` under interference: one writer and one reader take turns at any
 point between two samples. A call takes a snapshot of `count`, moves its samples one by one through
 `head` or `tail`, and only then adds or subtracts them from `count` in a critical section.
 */
module SampleRace {
  import opened Words
  import R = Ring

  // What a call of ring_buffer_write is doing; `limit` is what its snapshot allowed it to move.
  datatype Writer = Resting | Storing(data: seq<int16>, limit: nat, stored: nat)

  // What a call of ring_buffer_read is doing; `out` is what it has copied so far.
  datatype Reader = Waiting | Fetching(limit: nat, out: seq<int16>)

  /** The ring, the two calls in progress, and two histories since the last clear: `wrote` joins the
      accepted parts of all finished writes, `got` the results of all finished reads. */
  datatype State = State(
    buf: seq<int16>, head: nat, tail: nat, count: nat,
    writer: Writer, reader: Reader,
    wrote: seq<int16>, got: seq<int16>)

  datatype Action =
    | BeginWrite(data: seq<int16>)
    | StoreSample
    | EndWrite
    | BeginRead(wanted: nat)
    | FetchSample
    | EndRead
    | Clear

  function Init(buf: seq<int16>): State
  {
    State(buf, 0, 0, 0, Resting, Waiting, [], [])
  }

  // A clear happens only while no call is in progress: streaming is stopped then.
  predicate Enabled(s: State, a: Action)
  {
    match a
    case BeginWrite(data) => s.writer.Resting? && 0 < |data| < U32
    case StoreSample => s.writer.Storing? && s.writer.stored < s.writer.limit
    case EndWrite => s.writer.Storing? && s.writer.stored == s.writer.limit
    case BeginRead(wanted) => s.reader.Waiting? && 0 < wanted < U32
    case FetchSample => s.reader.Fetching? && |s.reader.out| < s.reader.limit
    case EndRead => s.reader.Fetching? && |s.reader.out| == s.reader.limit
    case Clear => s.writer.Resting? && s.reader.Waiting?
  }

  // One step, with the 32-bit arithmetic of the C code. The indices are in bounds in every reachable state.
  function Step(s: State, a: Action): State
    requires WellFormed(s) && Enabled(s, a)
  {
    match a
    case BeginWrite(data) =>
      s.(writer := Storing(data, Min(|data|, Wrap32(|s.buf| - s.count)), 0))
    case StoreSample =>
      s.(buf := s.buf[s.head := s.writer.data[s.writer.stored]], head := R.Next(s.head, |s.buf|),
         writer := s.writer.(stored := s.writer.stored + 1))
    case EndWrite =>
      s.(count := Wrap32(s.count + s.writer.stored), writer := Resting,
         wrote := s.wrote + s.writer.data[..s.writer.stored])
    case BeginRead(wanted) =>
      s.(reader := Fetching(Min(wanted, s.count), []))
    case FetchSample =>
      s.(tail := R.Next(s.tail, |s.buf|), reader := s.reader.(out := s.reader.out + [s.buf[s.tail]]))
    case EndRead =>
      s.(count := Wrap32(s.count - |s.reader.out|), reader := Waiting, got := s.got + s.reader.out)
    case Clear =>
      s.(head := 0, tail := 0, count := 0, wrote := [], got := [])
  }

  predicate WellFormed(s: State)
  {
    && 0 < |s.buf| < U32 && s.head < |s.buf| && s.tail < |s.buf|
    && (s.writer.Storing? ==> s.writer.stored <= s.writer.limit <= |s.writer.data|)
  }

  // The samples the writer has stored but not published.
  function Unpublished(s: State): seq<int16>
    requires WellFormed(s)
  {
    if s.writer.Storing? then s.writer.data[..s.writer.stored] else []
  }

  // The samples the reader has taken but not given back.
  function Unreturned(s: State): seq<int16>
  {
    if s.reader.Fetching? then s.reader.out else []
  }

  // Every sample stored since the last clear.
  function Stored(s: State): seq<int16>
    requires WellFormed(s)
  {
    s.wrote + Unpublished(s)
  }

  // Every sample taken since the last clear.
  function Taken(s: State): seq<int16>
  {
    s.got + Unreturned(s)
  }

  // The number of slots that hold a sample nobody has taken.
  function Unread(s: State): int
    requires WellFormed(s)
  {
    |Stored(s)| - |Taken(s)|
  }

  ghost predicate Inv(s: State)
  {
    && WellFormed(s)
    && s.count == |s.wrote| - |s.got| && 0 <= s.count <= |s.buf|
    && (s.writer.Storing? ==> s.count + s.writer.limit <= |s.buf|)
    && (s.reader.Fetching? ==> |s.reader.out| <= s.reader.limit <= s.count)
    && 0 <= Unread(s) <= |s.buf|
    && s.head == R.Slot(s.tail, Unread(s), |s.buf|)
    && Stored(s) == Taken(s) + R.Window(s.buf, s.tail, Unread(s))
  }

  lemma InitInv(buf: seq<int16>)
    requires 0 < |buf| < U32
    ensures Inv(Init(buf))
  {
  }

  lemma StoreInv(s: State)
    requires Inv(s) && Enabled(s, StoreSample)
    ensures Inv(Step(s, StoreSample))
  {
    hide R.Window, R.Slot, R.Next;
    var t := Step(s, StoreSample);
    var x := s.writer.data[s.writer.stored];
    var w := R.Window(s.buf, s.tail, Unread(s));
    R.WindowPush(s.buf, s.tail, Unread(s), x);
    assert Stored(t) == Stored(s) + [x] by {
      assert Unpublished(t) == Unpublished(s) + [x];
    }
    assert Taken(t) == Taken(s);
    assert R.Window(t.buf, t.tail, Unread(t)) == w + [x];
    assert (Taken(s) + w) + [x] == Taken(s) + (w + [x]);
  }

  lemma FetchInv(s: State)
    requires Inv(s) && Enabled(s, FetchSample)
    ensures Inv(Step(s, FetchSample))
  {
    hide R.Window, R.Slot, R.Next;
    var t := Step(s, FetchSample);
    var x := s.buf[s.tail];
    R.WindowPop(s.buf, s.tail, Unread(s));
    assert Taken(t) == Taken(s) + [x];
    assert Stored(t) == Stored(s);
    var w := R.Window(t.buf, t.tail, Unread(t));
    assert R.Window(s.buf, s.tail, Unread(s)) == [x] + w;
    assert Taken(s) + ([x] + w) == (Taken(s) + [x]) + w;
  }

  // The steps that store and take nothing.
  lemma EndWriteInv(s: State)
    requires Inv(s) && Enabled(s, EndWrite)
    ensures Inv(Step(s, EndWrite))
  {
    var t := Step(s, EndWrite);
    EndWriteExact(s);
    assert Unpublished(t) == [];
    assert Stored(t) == Stored(s);
    assert Taken(t) == Taken(s);
  }

  lemma EndReadInv(s: State)
    requires Inv(s) && Enabled(s, EndRead)
    ensures Inv(Step(s, EndRead))
  {
    var t := Step(s, EndRead);
    EndReadExact(s);
    assert Unreturned(t) == [];
    assert Taken(t) == Taken(s);
    assert Stored(t) == Stored(s);
  }

  lemma BeginInv(s: State, a: Action)
    requires Inv(s) && Enabled(s, a) && (a.BeginWrite? || a.BeginRead?)
    ensures Inv(Step(s, a))
  {
    hide R.Window, R.Slot, R.Next;
    assert Stored(Step(s, a)) == Stored(s) && Taken(Step(s, a)) == Taken(s);
  }

  lemma StepInv(s: State, a: Action)
    requires Inv(s) && Enabled(s, a)
    ensures Inv(Step(s, a))
  {
    match a
    case StoreSample => StoreInv(s);
    case FetchSample => FetchInv(s);
    case BeginWrite(_) => BeginInv(s, a);
    case BeginRead(_) => BeginInv(s, a);
    case EndWrite => EndWriteInv(s);
    case EndRead => EndReadInv(s);
    case Clear =>
  }

  // Runs: each action is enabled where it happens.
  ghost predicate CanRun(s: State, actions: seq<Action>)
    decreases |actions|
  {
    actions == [] || (WellFormed(s) && Enabled(s, actions[0]) && CanRun(Step(s, actions[0]), actions[1..]))
  }

  ghost function Run(s: State, actions: seq<Action>): State
    requires CanRun(s, actions)
    decreases |actions|
  {
    if actions == [] then s else Run(Step(s, actions[0]), actions[1..])
  }

  lemma {:induction false} RunInv(s: State, actions: seq<Action>)
    requires Inv(s) && CanRun(s, actions)
    ensures Inv(Run(s, actions))
    decreases |actions|
  {
    if actions != [] {
      StepInv(s, actions[0]);
      RunInv(Step(s, actions[0]), actions[1..]);
    }
  }

  /** Whatever the interleaving, the samples the reads have returned are a prefix, in order, of the samples
      the writes have accepted, and `count` is the difference. */
  lemma ReadsArePrefixOfWrites(buf: seq<int16>, actions: seq<Action>)
    requires 0 < |buf| < U32 && CanRun(Init(buf), actions)
    ensures var s := Run(Init(buf), actions);
      s.got <= s.wrote && s.count == |s.wrote| - |s.got| <= |s.buf|
  {
    InitInv(buf);
    RunInv(Init(buf), actions);
    GotIsPrefix(Run(Init(buf), actions));
  }

  lemma GotIsPrefix(s: State)
    requires Inv(s)
    ensures s.got <= s.wrote && Taken(s) <= s.wrote
  {
    assert Taken(s) <= Stored(s);
    assert |Taken(s)| <= |s.wrote|;
    assert Taken(s) == Stored(s)[..|Taken(s)|] == s.wrote[..|Taken(s)|];
    assert s.got == Taken(s)[..|s.got|];
  }

  /** In every reachable state the writer stores into a slot that holds no unread sample, and the reader
      takes the next sample of a finished write, never one of the write in progress. */
  lemma StepsKeepApart(buf: seq<int16>, actions: seq<Action>)
    requires 0 < |buf| < U32 && CanRun(Init(buf), actions)
    ensures var s := Run(Init(buf), actions);
      && WellFormed(s) && Unread(s) <= |s.buf|
      && (Enabled(s, StoreSample) ==> forall k :: 0 <= k < Unread(s) ==> R.Slot(s.tail, k, |s.buf|) != s.head)
      && (Enabled(s, FetchSample) ==> |Taken(s)| < |s.wrote| && s.buf[s.tail] == s.wrote[|Taken(s)|])
  {
    InitInv(buf);
    RunInv(Init(buf), actions);
    var s := Run(Init(buf), actions);
    if Enabled(s, FetchSample) {
      R.WindowPop(s.buf, s.tail, Unread(s));
      assert Stored(s)[|Taken(s)|] == s.buf[s.tail];
    }
  }

  // A call that nothing interrupts: its snapshot, `n` samples, its update of `count`.
  function Call(first: Action, sample: Action, n: nat, last: Action): seq<Action>
  {
    [first] + Repeat(sample, n) + [last]
  }

  function Repeat(a: Action, n: nat): (r: seq<Action>)
  {
    if n == 0 then [] else [a] + Repeat(a, n - 1)
  }

  lemma {:induction false} RunJoin(s: State, first: seq<Action>, second: seq<Action>)
    requires CanRun(s, first) && CanRun(Run(s, first), second)
    ensures CanRun(s, first + second) && Run(s, first + second) == Run(Run(s, first), second)
    decreases |first|
  {
    if first == [] {
      assert first + second == second;
    } else {
      RunJoin(Step(s, first[0]), first[1..], second);
      assert (first + second)[1..] == first[1..] + second;
    }
  }

  lemma {:induction false} StoreMany(s: State, n: nat)
    requires Inv(s) && s.writer.Storing? && s.writer.stored + n <= s.writer.limit
    ensures CanRun(s, Repeat(StoreSample, n))
    ensures var t := Run(s, Repeat(StoreSample, n));
      t == s.(buf := t.buf, head := t.head, writer := s.writer.(stored := s.writer.stored + n))
    decreases n
  {
    if n > 0 {
      StepInv(s, StoreSample);
      StoreMany(Step(s, StoreSample), n - 1);
      assert Repeat(StoreSample, n)[1..] == Repeat(StoreSample, n - 1);
    }
  }

  lemma {:induction false} FetchMany(s: State, n: nat)
    requires Inv(s) && s.reader.Fetching? && |s.reader.out| + n <= s.reader.limit
    ensures CanRun(s, Repeat(FetchSample, n))
    ensures var t := Run(s, Repeat(FetchSample, n));
      t == s.(tail := t.tail, reader := t.reader) && t.reader.Fetching? && t.reader.limit == s.reader.limit
      && |t.reader.out| == |s.reader.out| + n
    decreases n
  {
    if n > 0 {
      StepInv(s, FetchSample);
      FetchMany(Step(s, FetchSample), n - 1);
      assert Repeat(FetchSample, n)[1..] == Repeat(FetchSample, n - 1);
    }
  }

  lemma RunCall(s: State, first: Action, sample: Action, n: nat, last: Action)
    requires WellFormed(s) && Enabled(s, first) && CanRun(Step(s, first), Repeat(sample, n))
    requires var moved := Run(Step(s, first), Repeat(sample, n)); WellFormed(moved) && Enabled(moved, last)
    ensures CanRun(s, Call(first, sample, n, last))
    ensures Run(s, Call(first, sample, n, last)) == Step(Run(Step(s, first), Repeat(sample, n)), last)
  {
    var begun := Step(s, first);
    var moved := Run(begun, Repeat(sample, n));
    assert [last][1..] == [];
    var end := Step(moved, last);
    assert CanRun(end, []) && Run(end, []) == end;
    assert CanRun(moved, [last]) && Run(moved, [last]) == end;
    RunJoin(begun, Repeat(sample, n), [last]);
    assert Call(first, sample, n, last)[1..] == Repeat(sample, n) + [last];
  }

  /** Left alone, a write call runs to its end and moves as many samples as fit, as RingBuffer.Write does,
      also while a read call stands still half way. */
  lemma WriteAloneMovesAll(s: State, data: seq<int16>)
    requires Inv(s) && Enabled(s, BeginWrite(data))
    ensures var n := Min(|data|, |s.buf| - s.count);
      && CanRun(s, Call(BeginWrite(data), StoreSample, n, EndWrite))
      && var t := Run(s, Call(BeginWrite(data), StoreSample, n, EndWrite));
         t == s.(buf := t.buf, head := t.head, count := s.count + n, wrote := s.wrote + data[..n])
  {
    hide R.Window, R.Slot, R.Next;
    var n := Min(|data|, |s.buf| - s.count);
    BeginInv(s, BeginWrite(data));
    StoreMany(Step(s, BeginWrite(data)), n);
    RunInv(Step(s, BeginWrite(data)), Repeat(StoreSample, n));
    RunCall(s, BeginWrite(data), StoreSample, n, EndWrite);
    EndWriteExact(Run(Step(s, BeginWrite(data)), Repeat(StoreSample, n)));
  }

  /** Left alone, a read call returns the next unread samples, as RingBuffer.Read does. */
  lemma ReadAloneMovesAll(s: State, wanted: nat)
    requires Inv(s) && Enabled(s, BeginRead(wanted))
    ensures var n := Min(wanted, s.count);
      && CanRun(s, Call(BeginRead(wanted), FetchSample, n, EndRead))
      && var t := Run(s, Call(BeginRead(wanted), FetchSample, n, EndRead));
         && |s.got| + n <= |s.wrote|
         && t == s.(tail := t.tail, count := s.count - n, got := s.got + s.wrote[|s.got|..|s.got| + n])
  {
    hide CanRun, Run, R.Window, R.Slot, Unread, Stored, Taken;
    var n := Min(wanted, s.count);
    var moved := FetchAll(s, wanted);
    RunCall(s, BeginRead(wanted), FetchSample, n, EndRead);
    FinishFetching(s, moved, n);
  }

  lemma FetchAll(s: State, wanted: nat) returns (moved: State)
    requires Inv(s) && Enabled(s, BeginRead(wanted))
    ensures var n := Min(wanted, s.count);
      && CanRun(Step(s, BeginRead(wanted)), Repeat(FetchSample, n))
      && moved == Run(Step(s, BeginRead(wanted)), Repeat(FetchSample, n))
      && Inv(moved) && moved.reader.Fetching? && moved.reader.limit == |moved.reader.out| == n
      && moved == s.(tail := moved.tail, reader := moved.reader)
  {
    var n := Min(wanted, s.count);
    var begun := Step(s, BeginRead(wanted));
    BeginInv(s, BeginRead(wanted));
    FetchMany(begun, n);
    RunInv(begun, Repeat(FetchSample, n));
    moved := Run(begun, Repeat(FetchSample, n));
  }

  lemma FinishFetching(s: State, moved: State, n: nat)
    requires Inv(moved) && s.reader.Waiting? && moved.reader.Fetching? && moved.reader.limit == |moved.reader.out| == n
    requires moved == s.(tail := moved.tail, reader := moved.reader)
    ensures |s.got| + n <= |s.wrote|
    ensures Step(moved, EndRead) ==
      s.(tail := moved.tail, count := s.count - n, got := s.got + s.wrote[|s.got|..|s.got| + n])
  {
    EndReadExact(moved);
    FetchedIsNext(moved);
  }

  // What the snapshot of a call allows it to move.
  lemma BeginLimit(s: State, a: Action)
    requires Inv(s) && Enabled(s, a) && (a.BeginWrite? || a.BeginRead?)
    ensures a.BeginWrite? ==>
      Step(s, a) == s.(writer := Storing(a.data, Min(|a.data|, |s.buf| - s.count), 0))
    ensures a.BeginRead? ==> Step(s, a) == s.(reader := Fetching(Min(a.wanted, s.count), []))
  {
  }

  // In reachable states the 32-bit sums on the count do not wrap.
  lemma EndWriteExact(s: State)
    requires Inv(s) && Enabled(s, EndWrite)
    ensures Step(s, EndWrite) ==
      s.(count := s.count + s.writer.stored, writer := Resting, wrote := s.wrote + s.writer.data[..s.writer.stored])
  {
  }

  lemma EndReadExact(s: State)
    requires Inv(s) && Enabled(s, EndRead)
    ensures Step(s, EndRead) ==
      s.(count := s.count - |s.reader.out|, reader := Waiting, got := s.got + s.reader.out)
  {
  }

  // What a read call has fetched is the next stretch of what was written.
  lemma FetchedIsNext(s: State)
    requires Inv(s) && s.reader.Fetching?
    ensures |s.got| + |s.reader.out| <= |s.wrote|
    ensures s.reader.out == s.wrote[|s.got|..|s.got| + |s.reader.out|]
  {
    GotIsPrefix(s);
    assert s.reader.out == Taken(s)[|s.got|..];
    assert Taken(s) == s.wrote[..|s.got| + |s.reader.out|];
  }
}
