/**
 The frame ring of `audio_buffers.c` under interference: one context that writes and one that reads, interleaved at
 any point between the check, every copied byte, the stores of the metadata field by field, the move of the index, the
 counters and the measured level. The writer writes frames or commits what it filled in place; the reader reads,
 commits reads, skips and discards. No variable has two writers: `head` and its counters belong to the one side,
 `tail` and its counters to the other.
 */
module FrameRace {
  import opened Words
  import opened FrameFifo
  import opened FrameRing
  import R = Ring

  // What a writer asked for; it may leave the metadata to the buffer, and have filled the data in place.
  datatype Ask = Ask(data: seq<uint8>, meta: Option<Meta>, inPlace: bool)

  // The write in progress: how many bytes it has copied, and how many fields of the metadata it has stored.
  datatype Writer =
    | Resting
    | Copying(ask: Ask, frame: Frame, copied: nat)
    | Labelling(ask: Ask, frame: Frame, fields: nat)
    | Measured(ask: Ask, frame: Frame)
    | Counting(ask: Ask)
    | Gauging

  // How a frame left: a read that had room for `maxLen` bytes returned it, a read in place was committed, it was
  // skipped, or discarded as older than some time.
  datatype Exit =
    | Delivered(maxLen: nat, data: seq<uint8>, meta: Meta)
    | Committed(len: nat)
    | Skipped
    | Discarded(timestamp: uint32)

  // The reading operation in progress. In Leaving it is about to move the tail.
  datatype Reader =
    | Waiting
    | Sizing(maxLen: nat)
    | Fetching(maxLen: nat, len: nat, out: seq<uint8>)
    | Releasing
    | Discarding(timestamp: uint32)
    | Leaving(exit: Exit)
    | Settling(bytes: nat)
    | Sounding

  datatype Counts = Counts(framesWritten: uint32, bytesWritten: uint32, framesRead: uint32, bytesRead: uint32)

  datatype State = State(
    entries: seq<Entry>, head: nat, tail: nat, frameSize: nat,
    writer: Writer, reader: Reader, sequence: uint16, counts: Counts, peak: nat,
    writeLevels: seq<nat>, readLevels: seq<nat>,
    asked: seq<Ask>, written: seq<Frame>, taken: seq<Exit>, refused: nat)

  datatype Action =
    | BeginWrite(data: seq<uint8>, meta: Option<Meta>)
    | FillByte(at: nat, x: uint8)
    | BeginCommit(len: nat, meta: Option<Meta>)
    | CopyByte
    | StoreField
    | StoreLength
    | MoveHead
    | CountWritten
    | MeasureLevel
    | BeginRead(maxLen: nat)
    | LoadLength
    | FetchByte
    | FetchMeta
    | BeginCommitRead
    | CountCommitted
    | BeginSkip
    | BeginDiscard(timestamp: uint32)
    | Examine
    | MoveTail
    | CountRead
    | SoundLevel

  function Init(entries: seq<Entry>, frameSize: nat): State
  {
    State(entries, 0, 0, frameSize, Resting, Waiting, 0, Counts(0, 0, 0, 0), 0, [], [], [], [], [], 0)
  }

  // The metadata to be stored: the caller's, or those that the buffer makes up.
  function Label(sequence: uint16, ask: Ask): Meta
    requires |ask.data| < U16
  {
    match ask.meta
    case Some(m) => m
    case None => Meta(NOW, sequence, |ask.data|, 1, true, 0)
  }

  const FIELDS := 6

  // The fields one by one, in the order of the C code; a commit without metadata stores the length only at the end.
  function WithField(m: Meta, x: Meta, k: nat, ask: Ask): Meta
  {
    if k == 0 then m.(timestamp := x.timestamp)
    else if k == 1 then m.(sequence := x.sequence)
    else if k == 2 then if ask.inPlace && ask.meta == None then m else m.(length := x.length)
    else if k == 3 then m.(channels := x.channels)
    else if k == 4 then m.(valid := x.valid)
    else m.(flags := x.flags)
  }

  // The fields stored so far, but for the length, which is stored again.
  predicate AgreeUpTo(m: Meta, x: Meta, k: nat)
  {
    && (k > 0 ==> m.timestamp == x.timestamp) && (k > 1 ==> m.sequence == x.sequence)
    && (k > 3 ==> m.channels == x.channels) && (k > 4 ==> m.valid == x.valid) && (k > 5 ==> m.flags == x.flags)
  }

  predicate Busy(w: Writer) { w.Copying? || w.Labelling? || w.Measured? }

  predicate ReadyToLabel(w: Writer)
  {
    w.Labelling? || (w.Copying? && w.copied == |w.frame.data|)
  }

  function Stores(w: Writer): nat { if w.Labelling? then w.fields else 0 }

  predicate Enabled(s: State, a: Action)
  {
    match a
    case BeginWrite(data, _) => s.writer.Resting? && 0 < |data| <= s.frameSize
    case FillByte(at, _) => s.writer.Resting? && at < s.frameSize
    case BeginCommit(len, _) => s.writer.Resting? && 0 < len <= s.frameSize
    case CopyByte => s.writer.Copying? && s.writer.copied < |s.writer.frame.data|
    case StoreField => ReadyToLabel(s.writer) && Stores(s.writer) < FIELDS
    case StoreLength => s.writer.Labelling? && s.writer.fields == FIELDS
    case MoveHead => s.writer.Measured?
    case CountWritten => s.writer.Counting?
    case MeasureLevel => s.writer.Gauging?
    case LoadLength => s.reader.Sizing?
    case FetchByte => s.reader.Fetching? && |s.reader.out| < s.reader.len
    case FetchMeta => s.reader.Fetching? && |s.reader.out| == s.reader.len
    case CountCommitted => s.reader.Releasing?
    case Examine => s.reader.Discarding?
    case MoveTail => s.reader.Leaving?
    case CountRead => s.reader.Settling?
    case SoundLevel => s.reader.Sounding?
    case _ => s.reader.Waiting?
  }

  predicate WellFormed(s: State)
  {
    && 0 < s.frameSize < U16 && 2 <= |s.entries| <= MAX_DEPTH + 1
    && s.head < |s.entries| && s.tail < |s.entries|
    && (forall i :: 0 <= i < |s.entries| ==> |s.entries[i].data| == s.frameSize)
    && (Busy(s.writer) ==> 0 < |s.writer.frame.data| <= s.frameSize)
    && (s.reader.Fetching? ==> s.reader.len <= s.frameSize)
  }

  predicate IsFull(s: State)
    requires WellFormed(s)
  {
    R.Next(s.head, |s.entries|) == s.tail
  }

  // ring_level, on the indices as they are at this moment.
  function LevelNow(s: State): nat
    requires WellFormed(s)
  {
    Level(s.head, s.tail, |s.entries|)
  }

  function Store(s: State, e: Entry, writer: Writer): State
    requires WellFormed(s)
  {
    s.(entries := s.entries[s.head := e], writer := writer)
  }

  // A step of the writer. A write that finds the ring full ends at its check. The caller's metadata are stored
  // whole, and only then is their length replaced by the real one.
  function WriteStep(s: State, a: Action): State
    requires WellFormed(s) && Enabled(s, a)
  {
    var e := s.entries[s.head];
    match a
    case BeginWrite(data, meta) =>
      var ask := Ask(data, meta, false);
      if IsFull(s) then s.(refused := s.refused + 1)
      else s.(writer := Copying(ask, Frame(data, Label(s.sequence, ask)), 0))
    case FillByte(at, x) => Store(s, e.(data := e.data[at := x]), Resting)
    case BeginCommit(len, meta) =>
      var ask := Ask(e.data[..len], meta, true);
      if IsFull(s) then s else s.(writer := Labelling(ask, Frame(ask.data, Label(s.sequence, ask)), 0))
    case CopyByte =>
      var k := s.writer.copied;
      Store(s, e.(data := e.data[k := s.writer.frame.data[k]]), Copying(s.writer.ask, s.writer.frame, k + 1))
    case StoreField =>
      var k := Stores(s.writer);
      Store(s, e.(meta := WithField(e.meta, s.writer.frame.meta, k, s.writer.ask)),
            Labelling(s.writer.ask, s.writer.frame, k + 1))
    case StoreLength =>
      Store(s, e.(meta := e.meta.(length := |s.writer.frame.data|)), Measured(s.writer.ask, s.writer.frame))
    case MoveHead =>
      s.(head := R.Next(s.head, |s.entries|), writer := Counting(s.writer.ask), sequence := Wrap16(s.sequence + 1),
         asked := s.asked + [s.writer.ask], written := s.written + [Sealed(s.writer.frame)])
    case CountWritten =>
      s.(counts := s.counts.(framesWritten := Wrap32(s.counts.framesWritten + 1),
                             bytesWritten := Wrap32(s.counts.bytesWritten + |s.writer.ask.data|)),
         writer := if s.writer.ask.inPlace then Resting else Gauging)
    case MeasureLevel =>
      var level := LevelNow(s);
      s.(peak := if level > s.peak then level else s.peak, writeLevels := s.writeLevels + [level], writer := Resting)
    case _ => s
  }

  // A step of the reader. What finds the ring empty ends at its check.
  function ReadStep(s: State, a: Action): State
    requires WellFormed(s) && Enabled(s, a)
  {
    var e := s.entries[s.tail];
    match a
    case BeginRead(maxLen) => if s.head == s.tail then s else s.(reader := Sizing(maxLen))
    case LoadLength =>
      s.(reader := Fetching(s.reader.maxLen, Min(e.meta.length, s.reader.maxLen), []))
    case FetchByte =>
      s.(reader := Fetching(s.reader.maxLen, s.reader.len, s.reader.out + [e.data[|s.reader.out|]]))
    case FetchMeta => s.(reader := Leaving(Delivered(s.reader.maxLen, s.reader.out, e.meta)))
    case BeginCommitRead => if s.head == s.tail then s else s.(reader := Releasing)
    case CountCommitted =>
      s.(counts := s.counts.(framesRead := Wrap32(s.counts.framesRead + 1),
                             bytesRead := Wrap32(s.counts.bytesRead + e.meta.length)),
         reader := Leaving(Committed(e.meta.length)))
    case BeginSkip => if s.head == s.tail then s else s.(reader := Leaving(Skipped))
    case BeginDiscard(timestamp) => s.(reader := Discarding(timestamp))
    case Examine =>
      s.(reader := if s.head == s.tail || e.meta.timestamp >= s.reader.timestamp then Waiting
                   else Leaving(Discarded(s.reader.timestamp)))
    case MoveTail =>
      s.(tail := R.Next(s.tail, |s.entries|), taken := s.taken + [s.reader.exit], reader := Behind(s.reader.exit))
    case CountRead =>
      s.(counts := s.counts.(framesRead := Wrap32(s.counts.framesRead + 1),
                             bytesRead := Wrap32(s.counts.bytesRead + s.reader.bytes)),
         reader := Sounding)
    case SoundLevel => s.(readLevels := s.readLevels + [LevelNow(s)], reader := Waiting)
    case _ => s
  }

  // What follows the move of the tail.
  function Behind(exit: Exit): Reader
  {
    match exit
    case Delivered(_, data, _) => Settling(|data|)
    case Discarded(timestamp) => Discarding(timestamp)
    case _ => Waiting
  }

  predicate IsWrite(a: Action)
  {
    || a.BeginWrite? || a.FillByte? || a.BeginCommit? || a.CopyByte? || a.StoreField? || a.StoreLength?
    || a.MoveHead? || a.CountWritten? || a.MeasureLevel?
  }

  function Step(s: State, a: Action): State
    requires WellFormed(s) && Enabled(s, a)
  {
    if IsWrite(a) then WriteStep(s, a) else ReadStep(s, a)
  }

  // A written frame carries its real length.
  function Sealed(x: Frame): Frame
    requires |x.data| < U16
  {
    Frame(x.data, x.meta.(length := |x.data|))
  }

  // The number of frames written that have not left.
  function Unread(s: State): int { |s.written| - |s.taken| }

  ghost predicate WriterInv(s: State)
    requires WellFormed(s)
  {
    Busy(s.writer) ==>
      var e, x := s.entries[s.head], s.writer.frame;
      && Unread(s) < |s.entries| - 1
      && match s.writer
         case Copying(_, _, copied) => copied <= |x.data| && e.data[..copied] == x.data[..copied]
         case Labelling(_, _, fields) =>
           fields <= FIELDS && e.data[..|x.data|] == x.data && AgreeUpTo(e.meta, x.meta, fields)
         case Measured(_, _) => e.data[..|x.data|] == x.data && e.meta == Sealed(x).meta
         case _ => true
  }

  // What a read with `maxLen` bytes of room returns of frame `x`.
  function Answer(x: Frame, maxLen: nat): Exit { Delivered(maxLen, Cut(x, maxLen), x.meta) }

  // This is how frame `x` may leave.
  predicate Fits(exit: Exit, x: Frame)
  {
    match exit
    case Delivered(maxLen, _, _) => exit == Answer(x, maxLen)
    case Committed(len) => len == |x.data|
    case Skipped => true
    case Discarded(timestamp) => x.meta.timestamp < timestamp
  }

  predicate AtFrame(r: Reader) { r.Sizing? || r.Fetching? || r.Releasing? || r.Leaving? }

  ghost predicate ReaderInv(s: State)
    requires WellFormed(s)
  {
    AtFrame(s.reader) ==>
      && 0 < Unread(s)
      && var x := s.written[|s.taken|];
         match s.reader
         case Fetching(maxLen, len, out) => len == |Cut(x, maxLen)| && |out| <= len && out == x.data[..|out|]
         case Leaving(exit) => Fits(exit, x)
         case _ => true
  }

  ghost predicate QueueInv(s: State)
    requires WellFormed(s)
  {
    && 0 <= Unread(s) < |s.entries|
    && s.head == R.Slot(s.tail, Unread(s), |s.entries|)
    && s.written[|s.taken|..] == R.Window(Views(s.entries), s.tail, Unread(s))
    && (forall x :: x in s.written ==> 0 < |x.data| == x.meta.length <= s.frameSize)
    && (forall i :: 0 <= i < |s.taken| ==> Fits(s.taken[i], s.written[i]))
  }

  ghost predicate Inv(s: State)
  {
    WellFormed(s) && WriterInv(s) && QueueInv(s) && ReaderInv(s)
  }

  // A store into the entry at the head changes no queued frame.
  lemma HeadIsFree(s: State, e: Entry)
    requires Inv(s)
    ensures R.Window(Views(s.entries[s.head := e]), s.tail, Unread(s)) == R.Window(Views(s.entries), s.tail, Unread(s))
    ensures Unread(s) > 0 ==> s.head != s.tail
  {
    assert Views(s.entries[s.head := e]) == Views(s.entries)[s.head := View(e)];
    R.WindowFrame(Views(s.entries), s.tail, Unread(s), Unread(s), View(e));
  }

  // The oldest queued frame is the one at the tail.
  lemma TailIsOldest(s: State)
    requires Inv(s) && 0 < Unread(s)
    ensures View(s.entries[s.tail]) == s.written[|s.taken|]
    ensures var (e, x) := (s.entries[s.tail], s.written[|s.taken|]);
      e.meta == x.meta && x.data == e.data[..|x.data|] && |x.data| == x.meta.length
  {
    R.WindowPop(Views(s.entries), s.tail, Unread(s));
    assert s.written[|s.taken|..][0] == s.written[|s.taken|];
    assert s.written[|s.taken|] in s.written;
  }

  lemma StoreKeeps(s: State, e: Entry, writer: Writer)
    requires Inv(s) && |e.data| == s.frameSize && (Busy(writer) ==> 0 < |writer.frame.data| <= s.frameSize)
    ensures var t := Store(s, e, writer); WellFormed(t) && QueueInv(t) && ReaderInv(t)
  {
    hide WriterInv, Fits;
    HeadIsFree(s, e);
  }

  lemma StoreInv(s: State, a: Action)
    requires Inv(s) && Enabled(s, a) && (a.FillByte? || a.CopyByte? || a.StoreField? || a.StoreLength?)
    ensures Inv(Step(s, a))
  {
    hide QueueInv, ReaderInv;
    var t := Step(s, a);
    StoreKeeps(s, t.entries[s.head], t.writer);
  }

  // A step that leaves a part of the state alone keeps that part of the invariant.
  lemma KeepsWriter(s: State, t: State)
    requires WellFormed(s) && WriterInv(s) && WellFormed(t)
    requires t.entries == s.entries && t.head == s.head && t.writer == s.writer && Unread(t) <= Unread(s)
    ensures WriterInv(t)
  {
  }

  lemma KeepsReader(s: State, t: State)
    requires WellFormed(s) && ReaderInv(s) && WellFormed(t)
    requires t.reader == s.reader && t.taken == s.taken && s.written <= t.written
    ensures ReaderInv(t)
  {
    hide Fits;
    assert AtFrame(s.reader) ==> t.written[|t.taken|] == s.written[|s.taken|];
  }

  lemma KeepsQueue(s: State, t: State)
    requires WellFormed(s) && QueueInv(s) && WellFormed(t)
    requires t.entries == s.entries && t.head == s.head && t.tail == s.tail && t.frameSize == s.frameSize
    requires t.written == s.written && t.taken == s.taken
    ensures QueueInv(t)
  {
  }

  lemma HeadHolds(s: State)
    requires Inv(s) && Enabled(s, MoveHead)
    ensures View(s.entries[s.head]) == Sealed(s.writer.frame) && Unread(s) < |s.entries| - 1
  {
    hide QueueInv, ReaderInv;
  }

  lemma MoveHeadQueue(s: State)
    requires Inv(s) && Enabled(s, MoveHead)
    ensures WellFormed(Step(s, MoveHead)) && QueueInv(Step(s, MoveHead))
  {
    hide WriterInv, ReaderInv, Fits, R.Window, R.Slot, R.Next;
    HeadHolds(s);
    var t, x := Step(s, MoveHead), Sealed(s.writer.frame);
    R.WindowPush(Views(s.entries), s.tail, Unread(s), x);
    assert Views(s.entries)[s.head := x] == Views(s.entries);
    assert t.written[|t.taken|..] == s.written[|s.taken|..] + [x];
  }

  lemma MoveHeadInv(s: State)
    requires Inv(s) && Enabled(s, MoveHead)
    ensures Inv(Step(s, MoveHead))
  {
    hide ReaderInv, QueueInv, R.Window, R.Slot, R.Next, Views;
    MoveHeadQueue(s);
    KeepsReader(s, Step(s, MoveHead));
  }

  lemma MoveTailFits(s: State)
    requires Inv(s) && Enabled(s, MoveTail)
    ensures var t := Step(s, MoveTail); forall i :: 0 <= i < |t.taken| ==> Fits(t.taken[i], t.written[i])
  {
    hide Fits, WriterInv;
  }

  lemma MoveTailWindow(s: State)
    requires Inv(s) && Enabled(s, MoveTail)
    ensures var t := Step(s, MoveTail);
      && t.head == R.Slot(t.tail, Unread(t), |t.entries|)
      && t.written[|t.taken|..] == R.Window(Views(t.entries), t.tail, Unread(t))
  {
    hide WriterInv, Fits, R.Window, R.Slot, R.Next;
    var t := Step(s, MoveTail);
    R.WindowPop(Views(s.entries), s.tail, Unread(s));
    assert s.written[|s.taken|..] == [s.written[|s.taken|]] + t.written[|t.taken|..];
  }

  lemma MoveTailInv(s: State)
    requires Inv(s) && Enabled(s, MoveTail)
    ensures Inv(Step(s, MoveTail))
  {
    hide WriterInv, Fits, R.Window, R.Slot, R.Next, Views;
    MoveTailWindow(s);
    MoveTailFits(s);
    KeepsWriter(s, Step(s, MoveTail));
  }

  // What a step of the reader leaves to it.
  lemma TailStepReader(s: State, a: Action)
    requires Inv(s) && Enabled(s, a)
    requires a.LoadLength? || a.FetchByte? || a.FetchMeta? || a.CountCommitted?
    ensures WellFormed(Step(s, a)) && ReaderInv(Step(s, a))
  {
    hide WriterInv;
    TailIsOldest(s);
  }

  lemma ExamineReader(s: State)
    requires Inv(s) && Enabled(s, Examine)
    ensures WellFormed(Step(s, Examine)) && ReaderInv(Step(s, Examine))
  {
    hide WriterInv;
    if Unread(s) > 0 {
      TailIsOldest(s);
    }
  }

  lemma BeginReader(s: State, a: Action)
    requires Inv(s) && Enabled(s, a)
    requires a.BeginRead? || a.BeginCommitRead? || a.BeginSkip? || a.BeginDiscard? || a.CountRead? || a.SoundLevel?
    ensures WellFormed(Step(s, a)) && ReaderInv(Step(s, a))
  {
    hide WriterInv, Level;
  }

  lemma ReadStepInv(s: State, a: Action)
    requires Inv(s) && Enabled(s, a) && !IsWrite(a) && !a.MoveTail?
    ensures Inv(Step(s, a))
  {
    hide WriterInv, ReaderInv, QueueInv, Level;
    if a.LoadLength? || a.FetchByte? || a.FetchMeta? || a.CountCommitted? {
      TailStepReader(s, a);
    } else if a.Examine? {
      ExamineReader(s);
    } else {
      BeginReader(s, a);
    }
    KeepsWriter(s, Step(s, a));
    KeepsQueue(s, Step(s, a));
  }

  lemma BeginWriter(s: State, a: Action)
    requires Inv(s) && Enabled(s, a) && (a.BeginWrite? || a.BeginCommit? || a.CountWritten? || a.MeasureLevel?)
    ensures Inv(Step(s, a))
  {
    hide ReaderInv, Level;
    KeepsReader(s, Step(s, a));
    KeepsQueue(s, Step(s, a));
  }

  lemma StepInv(s: State, a: Action)
    requires Inv(s) && Enabled(s, a)
    ensures Inv(Step(s, a))
  {
    hide Inv, Step;
    match a
    case FillByte(_, _) => StoreInv(s, a);
    case CopyByte => StoreInv(s, a);
    case StoreField => StoreInv(s, a);
    case StoreLength => StoreInv(s, a);
    case MoveHead => MoveHeadInv(s);
    case MoveTail => MoveTailInv(s);
    case BeginWrite(_, _) => BeginWriter(s, a);
    case BeginCommit(_, _) => BeginWriter(s, a);
    case CountWritten => BeginWriter(s, a);
    case MeasureLevel => BeginWriter(s, a);
    case _ => ReadStepInv(s, a);
  }

  // Every written frame is what its caller asked for; metadata made up by the buffer count the frames.
  function Filed(i: nat, ask: Ask): Frame
    requires |ask.data| < U16
  {
    Frame(ask.data, Stored(Wrap16(i), ask.meta, |ask.data|))
  }

  ghost predicate AskInv(s: State)
  {
    && |s.asked| == |s.written| && s.sequence == Wrap16(|s.written|)
    && (Busy(s.writer) ==>
          |s.writer.ask.data| < U16
          && s.writer.frame == Frame(s.writer.ask.data, Label(s.sequence, s.writer.ask)))
    && forall i :: 0 <= i < |s.written| ==> |s.asked[i].data| < U16 && s.written[i] == Filed(i, s.asked[i])
  }

  lemma AskStep(s: State, a: Action)
    requires WellFormed(s) && AskInv(s) && Enabled(s, a)
    ensures AskInv(Step(s, a))
  {
    hide Level;
    if a.MoveHead? {
      WrapNext(|s.written|);
      assert Sealed(s.writer.frame) == Filed(|s.written|, s.writer.ask);
    }
  }

  lemma WrapNext(n: nat)
    ensures Wrap16(Wrap16(n) + 1) == Wrap16(n + 1)
  {
  }

  // The bytes that were asked for.
  function AskedBytes(asked: seq<Ask>): nat
  {
    if asked == [] then 0 else AskedBytes(asked[..|asked| - 1]) + |asked[|asked| - 1].data|
  }

  // The bytes and frames that count as read: those of frames that left through a read or a committed read.
  function BytesOf(exit: Exit): nat
  {
    match exit
    case Delivered(_, data, _) => |data|
    case Committed(len) => len
    case _ => 0
  }

  function FramesOf(exit: Exit): nat { if exit.Delivered? || exit.Committed? then 1 else 0 }

  function ReadFrames(taken: seq<Exit>): nat
    ensures ReadFrames(taken) <= |taken|
  {
    if taken == [] then 0 else ReadFrames(taken[..|taken| - 1]) + FramesOf(taken[|taken| - 1])
  }

  function ReadBytes(taken: seq<Exit>): nat
  {
    if taken == [] then 0 else ReadBytes(taken[..|taken| - 1]) + BytesOf(taken[|taken| - 1])
  }

  // Counters run behind a write or a read that has moved its index, and ahead of a committed read that has not.
  function FramesBehind(w: Writer): int { if w.Counting? then 1 else 0 }

  function BytesBehind(w: Writer): int { if w.Counting? then |w.ask.data| else 0 }

  function FramesAhead(r: Reader): int
  {
    if r.Settling? then -1 else if r.Leaving? && r.exit.Committed? then 1 else 0
  }

  function BytesAhead(r: Reader): int
  {
    if r.Settling? then 0 - r.bytes else if r.Leaving? && r.exit.Committed? then r.exit.len else 0
  }

  ghost predicate AskedCounted(s: State)
  {
    && s.counts.framesWritten == Wrap32(|s.asked| - FramesBehind(s.writer))
    && s.counts.bytesWritten == Wrap32(AskedBytes(s.asked) - BytesBehind(s.writer))
  }

  ghost predicate TakenCounted(s: State)
  {
    && s.counts.framesRead == Wrap32(ReadFrames(s.taken) + FramesAhead(s.reader))
    && s.counts.bytesRead == Wrap32(ReadBytes(s.taken) + BytesAhead(s.reader))
  }

  // The other side's steps leave the counters alone.
  lemma ReadKeepsAsked(s: State, a: Action)
    requires WellFormed(s) && Enabled(s, a) && AskedCounted(s) && !IsWrite(a)
    ensures AskedCounted(Step(s, a))
  {
    hide AskedBytes, Wrap32, Level;
  }

  lemma WriteKeepsTaken(s: State, a: Action)
    requires WellFormed(s) && Enabled(s, a) && TakenCounted(s) && IsWrite(a)
    ensures TakenCounted(Step(s, a))
  {
    hide ReadFrames, ReadBytes, Wrap32, Level;
  }

  lemma OneAsked(asked: seq<Ask>, ask: Ask)
    ensures AskedBytes(asked + [ask]) == AskedBytes(asked) + |ask.data|
  {
  }

  lemma OneTaken(taken: seq<Exit>, exit: Exit)
    ensures ReadFrames(taken + [exit]) == ReadFrames(taken) + FramesOf(exit)
    ensures ReadBytes(taken + [exit]) == ReadBytes(taken) + BytesOf(exit)
  {
  }

  lemma CountAsked(s: State, a: Action)
    requires WellFormed(s) && Enabled(s, a) && AskedCounted(s) && IsWrite(a)
    ensures AskedCounted(Step(s, a))
  {
    hide AskedBytes, Wrap32, Level, IsFull, Store;
    if a.MoveHead? {
      OneAsked(s.asked, s.writer.ask);
    } else if a.CountWritten? {
      WrapStep(|s.asked| - 1, 1);
      WrapStep(AskedBytes(s.asked) - |s.writer.ask.data|, |s.writer.ask.data|);
    } else {
      KeepsAsked(s, a);
    }
  }

  lemma KeepsAsked(s: State, a: Action)
    requires WellFormed(s) && Enabled(s, a) && IsWrite(a) && !a.MoveHead? && !a.CountWritten?
    ensures var t := Step(s, a); t.asked == s.asked && t.counts == s.counts
    ensures !s.writer.Counting? && !Step(s, a).writer.Counting?
  {
    hide Level;
  }

  lemma CountTaken(s: State, a: Action)
    requires WellFormed(s) && Enabled(s, a) && TakenCounted(s) && !IsWrite(a)
    ensures TakenCounted(Step(s, a))
  {
    hide ReadFrames, ReadBytes, Wrap32, Level;
    if a.MoveTail? {
      OneTaken(s.taken, s.reader.exit);
    } else if a.CountRead? {
      WrapStep(ReadFrames(s.taken) - 1, 1);
      WrapStep(ReadBytes(s.taken) - s.reader.bytes, s.reader.bytes);
    } else if a.CountCommitted? {
      WrapStep(ReadFrames(s.taken), 1);
      WrapStep(ReadBytes(s.taken), s.entries[s.tail].meta.length);
    } else {
      KeepsTaken(s, a);
    }
  }

  lemma KeepsTaken(s: State, a: Action)
    requires WellFormed(s) && Enabled(s, a) && !IsWrite(a) && !a.MoveTail? && !a.CountRead? && !a.CountCommitted?
    ensures var t := Step(s, a);
      && t.taken == s.taken && t.counts == s.counts
      && FramesAhead(t.reader) == FramesAhead(s.reader) == 0 && BytesAhead(t.reader) == BytesAhead(s.reader) == 0
  {
    hide Level;
  }

  // The measured levels: none is above the depth, and the peak is the largest that writes measured.
  ghost predicate LevelInv(s: State)
  {
    && (forall level :: level in s.writeLevels ==> level < |s.entries| && level <= s.peak)
    && (forall level :: level in s.readLevels ==> level < |s.entries|)
    && if s.writeLevels == [] then s.peak == 0 else s.peak in s.writeLevels
  }

  lemma LevelStep(s: State, a: Action)
    requires WellFormed(s) && Enabled(s, a) && LevelInv(s)
    ensures LevelInv(Step(s, a))
  {
    if a.MeasureLevel? {
      var t := Step(s, a);
      assert t.writeLevels[|s.writeLevels|] == LevelNow(s);
      assert forall level :: level in s.writeLevels ==> level in t.writeLevels;
    }
  }

  ghost predicate CanRun(s: State, actions: seq<Action>)
    decreases |actions|
  {
    actions == [] || (WellFormed(s) && Enabled(s, actions[0]) && CanRun(Step(s, actions[0]), actions[1..]))
  }

  ghost function Run(s: State, actions: seq<Action>): State
    requires CanRun(s, actions)
    decreases |actions|
  {
    if actions == [] then s else Run(Step(s, actions[0]), actions[1..])
  }

  ghost predicate AllInv(s: State) { Inv(s) && AskInv(s) && AskedCounted(s) && TakenCounted(s) && LevelInv(s) }

  lemma AllStep(s: State, a: Action)
    requires AllInv(s) && Enabled(s, a)
    ensures AllInv(Step(s, a)) && |Step(s, a).entries| == |s.entries|
  {
    hide Step, Inv, AskInv, AskedCounted, TakenCounted, LevelInv;
    InvIsWellFormed(s);
    SameEntries(s, a);
    StepInv(s, a);
    AskStep(s, a);
    LevelStep(s, a);
    if IsWrite(a) {
      CountAsked(s, a);
      WriteKeepsTaken(s, a);
    } else {
      ReadKeepsAsked(s, a);
      CountTaken(s, a);
    }
  }

  lemma InvIsWellFormed(s: State)
    requires Inv(s)
    ensures WellFormed(s)
  {
  }

  lemma {:induction false} RunInv(s: State, actions: seq<Action>)
    requires AllInv(s) && CanRun(s, actions)
    ensures AllInv(Run(s, actions)) && |Run(s, actions).entries| == |s.entries|
    decreases |actions|
  {
    hide AllInv, Step;
    if actions != [] {
      AllStep(s, actions[0]);
      RunInv(Step(s, actions[0]), actions[1..]);
    }
  }

  lemma SameEntries(s: State, a: Action)
    requires WellFormed(s) && Enabled(s, a)
    ensures |Step(s, a).entries| == |s.entries|
  {
    hide Level;
  }

  lemma InitInv(entries: seq<Entry>, frameSize: nat)
    requires 0 < frameSize < U16 && 2 <= |entries| <= MAX_DEPTH + 1
    requires forall i :: 0 <= i < |entries| ==> |entries[i].data| == frameSize
    ensures AllInv(Init(entries, frameSize))
  {
  }

  /** Whatever the interleaving, frames leave in the order in which they were asked for, each once: what a read
      returned is the frame at its place, with its own metadata, or with a number that counts the frames if it came
      without, and with as many of its bytes as the reader had room for; what was discarded was older than the given
      time; and at most `depth` frames are queued. */
  lemma DeliversPrefix(entries: seq<Entry>, frameSize: nat, depth: nat, actions: seq<Action>)
    requires 0 < frameSize < U16 && 0 < depth <= MAX_DEPTH && |entries| == depth + 1
    requires forall i :: 0 <= i < |entries| ==> |entries[i].data| == frameSize
    requires CanRun(Init(entries, frameSize), actions)
    ensures var s := Run(Init(entries, frameSize), actions);
      && |s.taken| <= |s.asked| <= |s.taken| + depth
      && forall i :: 0 <= i < |s.taken| ==> |s.asked[i].data| < U16 && Fits(s.taken[i], Filed(i, s.asked[i]))
  {
    hide Run, Fits;
    InitInv(entries, frameSize);
    RunInv(Init(entries, frameSize), actions);
  }

  /** The counters under interference: between calls of both sides, frames written are frames read, plus frames queued,
      plus those skipped or discarded, modulo 2^32; bytes written and read are those asked for and returned. No level
      that was measured, so none that a callback reported, is above `depth`, and the peak is the largest that a write
      measured. */
  lemma CountersBalance(entries: seq<Entry>, frameSize: nat, depth: nat, actions: seq<Action>)
    requires 0 < frameSize < U16 && 0 < depth <= MAX_DEPTH && |entries| == depth + 1
    requires forall i :: 0 <= i < |entries| ==> |entries[i].data| == frameSize
    requires CanRun(Init(entries, frameSize), actions)
    ensures var s := Run(Init(entries, frameSize), actions);
      && (forall level :: level in s.writeLevels || level in s.readLevels ==> level <= depth)
      && (if s.writeLevels == [] then s.peak == 0 else s.peak in s.writeLevels)
      && (forall level :: level in s.writeLevels ==> level <= s.peak)
      && (s.writer.Resting? && s.reader.Waiting? ==>
            var queued, lost := |s.asked| - |s.taken|, |s.taken| - ReadFrames(s.taken);
            && s.counts.framesWritten == Wrap32(s.counts.framesRead + queued + lost)
            && s.counts.bytesWritten == Wrap32(AskedBytes(s.asked))
            && s.counts.bytesRead == Wrap32(ReadBytes(s.taken)))
  {
    hide Run, AskInv, Wrap32, WriterInv, ReaderInv, R.Window, Views, R.Slot;
    InitInv(entries, frameSize);
    RunInv(Init(entries, frameSize), actions);
    var s := Run(Init(entries, frameSize), actions);
    WrapStep(ReadFrames(s.taken), |s.asked| - ReadFrames(s.taken));
  }

  lemma FullIs(s: State)
    requires Inv(s)
    ensures (IsFull(s) <==> Unread(s) == |s.entries| - 1) && (s.head == s.tail <==> Unread(s) == 0)
  {
    hide WriterInv, ReaderInv, R.Window, Views;
  }

  /** A write is refused only when `depth` frames are queued, and a reading operation finds nothing only when none is,
      at the moment of their check; a discard ends there or at a frame that is not older. A level measured is the
      number of frames queued at that moment. */
  lemma ChecksAreExact(s: State, a: Action)
    requires Inv(s) && Enabled(s, a)
    ensures a.BeginWrite? || a.BeginCommit? ==> (Step(s, a).writer.Resting? <==> Unread(s) == |s.entries| - 1)
    ensures Step(s, a).refused == s.refused + if a.BeginWrite? && Unread(s) == |s.entries| - 1 then 1 else 0
    ensures a.BeginRead? || a.BeginCommitRead? || a.BeginSkip? ==> (Step(s, a).reader.Waiting? <==> Unread(s) == 0)
    ensures a.Examine? ==>
      (Step(s, a).reader.Waiting? <==>
         Unread(s) == 0 || s.written[|s.taken|].meta.timestamp >= s.reader.timestamp)
    ensures a.MeasureLevel? ==> Step(s, a).writeLevels == s.writeLevels + [Unread(s)]
    ensures a.SoundLevel? ==> Step(s, a).readLevels == s.readLevels + [Unread(s)]
  {
    hide WriterInv, ReaderInv, R.Window, Level;
    LevelOfSlot(s.tail, Unread(s), |s.entries|);
    FullIs(s);
    if Unread(s) > 0 {
      TailIsOldest(s);
    }
  }

  // What the writer does next, and how much it has left to do.
  function NextWrite(s: State): Action
  {
    match s.writer
    case Copying(_, frame, copied) => if copied < |frame.data| then CopyByte else StoreField
    case Labelling(_, _, fields) => if fields < FIELDS then StoreField else StoreLength
    case Measured(_, _) => MoveHead
    case Counting(_) => CountWritten
    case _ => MeasureLevel
  }

  function LeftToWrite(w: Writer): nat
  {
    match w
    case Copying(_, frame, copied) => (if copied < |frame.data| then |frame.data| - copied else 0) + 10
    case Labelling(_, _, fields) => (if fields < FIELDS then FIELDS - fields else 0) + 4
    case Measured(_, _) => 3
    case Counting(_) => 2
    case Gauging => 1
    case Resting => 0
  }

  // What a write in progress has asked for and not yet put into the ring.
  function InHand(w: Writer): seq<Ask> { if Busy(w) then [w.ask] else [] }

  function Measures(w: Writer): nat
  {
    if w.Gauging? || ((Busy(w) || w.Counting?) && !w.ask.inPlace) then 1 else 0
  }

  lemma WriteGoesOn(s: State)
    requires Inv(s) && !s.writer.Resting?
    ensures var a := NextWrite(s);
      && Enabled(s, a) && IsWrite(a)
      && var t := Step(s, a);
      && LeftToWrite(t.writer) < LeftToWrite(s.writer)
      && t.asked + InHand(t.writer) == s.asked + InHand(s.writer)
      && |t.writeLevels| + Measures(t.writer) == |s.writeLevels| + Measures(s.writer)
      && t.taken == s.taken && t.refused == s.refused && t.reader == s.reader
  {
    hide QueueInv, ReaderInv, Level;
  }

  // The writer left alone finishes.
  lemma {:induction false} WriteFinishes(s: State) returns (actions: seq<Action>)
    requires Inv(s)
    ensures CanRun(s, actions)
    ensures var t := Run(s, actions);
      && t.writer.Resting? && t.asked == s.asked + InHand(s.writer)
      && |t.writeLevels| == |s.writeLevels| + Measures(s.writer)
      && t.taken == s.taken && t.refused == s.refused && t.reader == s.reader
    decreases LeftToWrite(s.writer)
  {
    hide Inv, Step, Enabled, NextWrite, IsWrite;
    InvIsWellFormed(s);
    if s.writer.Resting? {
      actions := [];
      assert s.asked + [] == s.asked;
    } else {
      var a := NextWrite(s);
      WriteGoesOn(s);
      StepInv(s, a);
      var rest := WriteFinishes(Step(s, a));
      actions := [a] + rest;
      assert actions[1..] == rest;
    }
  }

  lemma BeginsWrite(s: State, a: Action)
    requires Inv(s) && s.writer.Resting? && Unread(s) < |s.entries| - 1
    requires if a.BeginWrite? then 0 < |a.data| <= s.frameSize else a.BeginCommit? && 0 < a.len <= s.frameSize
    ensures Enabled(s, a) && Inv(Step(s, a))
    ensures var ask := if a.BeginWrite? then Ask(a.data, a.meta, false)
                       else Ask(s.entries[s.head].data[..a.len], a.meta, true);
      var t := Step(s, a);
      && InHand(t.writer) == [ask] && t.asked == s.asked && t.writeLevels == s.writeLevels
      && t.taken == s.taken && t.refused == s.refused && t.reader == s.reader
  {
    StepInv(s, a);
    FullIs(s);
    hide WriterInv, QueueInv, ReaderInv, Level, IsFull;
  }

  /** Nothing blocks a write: a write or a commit of a valid size that finds room and is left alone ends, and has put
      its frame behind all others; a write has measured the level once, a commit has not. */
  lemma WriteAloneEnds(s: State, a: Action) returns (actions: seq<Action>)
    requires Inv(s) && s.writer.Resting? && Unread(s) < |s.entries| - 1
    requires if a.BeginWrite? then 0 < |a.data| <= s.frameSize else a.BeginCommit? && 0 < a.len <= s.frameSize
    ensures CanRun(s, actions)
    ensures var t := Run(s, actions);
      var ask := if a.BeginWrite? then Ask(a.data, a.meta, false)
                 else Ask(s.entries[s.head].data[..a.len], a.meta, true);
      && t.writer.Resting? && t.asked == s.asked + [ask] && t.taken == s.taken && t.refused == s.refused
      && |t.writeLevels| == |s.writeLevels| + if a.BeginWrite? then 1 else 0
  {
    hide Inv, Step, Enabled;
    InvIsWellFormed(s);
    BeginsWrite(s, a);
    var rest := WriteFinishes(Step(s, a));
    actions := [a] + rest;
    assert actions[1..] == rest;
  }

  // The same for the reader.
  function NextRead(s: State): Action
  {
    match s.reader
    case Sizing(_) => LoadLength
    case Fetching(_, len, out) => if |out| < len then FetchByte else FetchMeta
    case Releasing => CountCommitted
    case Discarding(_) => Examine
    case Leaving(_) => MoveTail
    case Settling(_) => CountRead
    case _ => SoundLevel
  }

  function LeftToRead(s: State): nat
    requires 0 <= Unread(s)
  {
    match s.reader
    case Sizing(_) => U16 + 10
    case Fetching(_, len, out) => (if |out| < len then len - |out| else 0) + 5
    case Releasing => 5
    case Discarding(_) => 2 * Unread(s) + 1
    case Leaving(exit) => if exit.Discarded? then 2 * Unread(s) else 4
    case Settling(_) => 3
    case Sounding => 2
    case Waiting => 0
  }

  // The time of a discard in progress, and where it stops.
  function Discards(r: Reader): Option<uint32>
  {
    if r.Discarding? then Some(r.timestamp)
    else if r.Leaving? && r.exit.Discarded? then Some(r.exit.timestamp)
    else None
  }

  ghost predicate StopsHere(s: State, timestamp: uint32)
  {
    Unread(s) <= 0 || s.written[|s.taken|].meta.timestamp >= timestamp
  }

  lemma ReadGoesOn(s: State)
    requires Inv(s) && !s.reader.Waiting?
    ensures var a := NextRead(s);
      && Enabled(s, a) && !IsWrite(a)
      && var t := Step(s, a);
      && 0 <= Unread(s) && 0 <= Unread(t) && LeftToRead(t) < LeftToRead(s)
      && t.asked == s.asked && t.writer == s.writer
      && t.taken == (if s.reader.Leaving? then s.taken + [s.reader.exit] else s.taken)
      && Follows(s.reader, t.reader)
      && (Discards(s.reader).Some? ==>
            if t.reader.Waiting? then StopsHere(t, Discards(s.reader).value)
            else Discards(t.reader) == Discards(s.reader))
  {
    hide Inv, Enabled;
    ReadEnabled(s);
    if s.reader.Discarding? {
      ChecksAreExact(s, Examine);
    }
  }

  lemma ReadEnabled(s: State)
    requires Inv(s) && !s.reader.Waiting?
    ensures WellFormed(s) && Enabled(s, NextRead(s)) && !IsWrite(NextRead(s))
    ensures 0 <= Unread(s) && 0 <= Unread(Step(s, NextRead(s)))
  {
    hide WriterInv, Fits, Level, R.Window, Views;
    EnabledRead(s);
    StepInv(s, NextRead(s));
    hide Step;
  }

  lemma EnabledRead(s: State)
    requires Inv(s) && !s.reader.Waiting?
    ensures WellFormed(s) && Enabled(s, NextRead(s)) && !IsWrite(NextRead(s))
  {
    hide WriterInv, QueueInv, Fits, Level, R.Window, Views;
  }

  // The kind of exit that a reading operation is about, and how its states follow each other.
  predicate Follows(r: Reader, n: Reader)
  {
    match r
    case Sizing(maxLen) => n.Fetching? && n.maxLen == maxLen
    case Fetching(maxLen, _, _) =>
      (n.Fetching? && n.maxLen == maxLen) || (n.Leaving? && n.exit.Delivered? && n.exit.maxLen == maxLen)
    case Releasing => n.Leaving? && n.exit.Committed?
    case Discarding(timestamp) => n.Waiting? || n == Leaving(Discarded(timestamp))
    case Leaving(exit) => n == Behind(exit)
    case Settling(_) => n == Sounding
    case Sounding => n == Waiting
    case Waiting => true
  }

  // The exits that are still to come: one of the kind that was asked for, or any number of discarded frames.
  predicate Comes(r: Reader, exits: seq<Exit>)
    decreases |exits|
  {
    match r
    case Sizing(maxLen) => |exits| == 1 && exits[0].Delivered? && exits[0].maxLen == maxLen
    case Fetching(maxLen, _, _) => |exits| == 1 && exits[0].Delivered? && exits[0].maxLen == maxLen
    case Releasing => |exits| == 1 && exits[0].Committed?
    case Discarding(timestamp) => forall i :: 0 <= i < |exits| ==> exits[i] == Discarded(timestamp)
    case Leaving(exit) => exits != [] && exits[0] == exit && Comes(Behind(exit), exits[1..])
    case _ => exits == []
  }

  lemma {:induction false} ReadFinishes(s: State) returns (actions: seq<Action>, exits: seq<Exit>)
    requires Inv(s) && 0 <= Unread(s)
    ensures CanRun(s, actions) && Comes(s.reader, exits) && (s.reader.Waiting? ==> actions == [])
    ensures var t := Run(s, actions);
      && t.reader.Waiting? && t.taken == s.taken + exits && t.asked == s.asked && t.writer == s.writer
      && (Discards(s.reader).Some? ==> StopsHere(t, Discards(s.reader).value))
    decreases LeftToRead(s)
  {
    hide Inv, Step, Enabled, NextRead, IsWrite, StopsHere;
    InvIsWellFormed(s);
    if s.reader.Waiting? {
      actions, exits := [], [];
      assert s.taken + [] == s.taken;
    } else {
      var a := NextRead(s);
      ReadGoesOn(s);
      StepInv(s, a);
      var rest, later := ReadFinishes(Step(s, a));
      actions := [a] + rest;
      assert actions[1..] == rest;
      exits := if s.reader.Leaving? then [s.reader.exit] + later else later;
      assert s.reader.Leaving? ==> exits[1..] == later && s.taken + exits == (s.taken + [s.reader.exit]) + later;
    }
  }

  /** Nothing blocks a reading operation: one that is left alone ends. A read, a committed read or a skip that finds a
      frame takes exactly one out, the oldest, in its way; a discard takes out older frames only, and stops in front of
      a frame that is not older or when there is none. */
  lemma ReadAloneEnds(s: State, a: Action) returns (actions: seq<Action>, exits: seq<Exit>)
    requires Inv(s) && s.reader.Waiting? && (a.BeginRead? || a.BeginCommitRead? || a.BeginSkip? || a.BeginDiscard?)
    ensures CanRun(s, actions)
    ensures var t := Run(s, actions);
      && t.reader.Waiting? && t.taken == s.taken + exits && t.asked == s.asked && t.writer == s.writer
      && (a.BeginDiscard? ==> StopsHere(t, a.timestamp))
    ensures match a
      case BeginRead(maxLen) =>
        if Unread(s) == 0 then exits == [] else |exits| == 1 && exits[0].Delivered? && exits[0].maxLen == maxLen
      case BeginCommitRead => if Unread(s) == 0 then exits == [] else |exits| == 1 && exits[0].Committed?
      case BeginSkip => exits == if Unread(s) == 0 then [] else [Skipped]
      case BeginDiscard(timestamp) => forall i :: 0 <= i < |exits| ==> exits[i] == Discarded(timestamp)
      case _ => true
  {
    StepInv(s, a);
    FullIs(s);
    var t := Step(s, a);
    hide Inv, Step, Enabled, WriterInv, QueueInv, ReaderInv, Level, StopsHere;
    UnreadIs(t);
    var rest;
    rest, exits := ReadFinishes(t);
    actions := [a] + rest;
    assert actions[1..] == rest;
  }

  lemma UnreadIs(s: State)
    requires Inv(s)
    ensures 0 <= Unread(s)
  {
  }
}
