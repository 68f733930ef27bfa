/**
 The path of encoded frames from the audio core (CM55) to the Bluetooth core (CM33): `process_tx_path` of
 `audio_task.c` numbers the frames and offers them to a queue of four, `audio_ipc.c` counts on both sides.
 The queue operations are atomic; everything else on the two cores interleaves at any point.
 */
module FrameLink {
  import opened Words

  const DEPTH := 4

  datatype Frame = Frame(sequence: uint16, timestamp: uint32, data: seq<uint8>)

  // Where the audio core is: between frames, holding an encoded frame, or about to count what the queue said.
  datatype TxPlace = Ready | Holding(frame: Frame) | Tried(ok: bool)

  datatype RxPlace = Idle | Polled(ok: bool)

  datatype Tx = Tx(place: TxPlace, sequence: uint16, frames: uint32, full: uint32)

  datatype Rx = Rx(place: RxPlace, frames: uint32, empty: uint32)

  // The parts of one step.
  function NumberFrame(tx: Tx, now: uint32, data: seq<uint8>): Tx
  {
    tx.(place := Holding(Frame(tx.sequence, now, data)), sequence := Wrap16(tx.sequence + 1))
  }

  function Offered(queue: seq<Frame>, f: Frame): seq<Frame>
  {
    if |queue| < DEPTH then queue + [f] else queue
  }

  function CountSent(tx: Tx, ok: bool): Tx
  {
    if ok then tx.(place := Ready, frames := Wrap32(tx.frames + 1))
    else tx.(place := Ready, full := Wrap32(tx.full + 1))
  }

  function CountPolled(rx: Rx, ok: bool): Rx
  {
    if ok then rx.(place := Idle, frames := Wrap32(rx.frames + 1))
    else rx.(place := Idle, empty := Wrap32(rx.empty + 1))
  }

  // The mtb-ipc queue between the cores.
  class FrameQueue {
    var frames: seq<Frame>

    constructor ()
      ensures frames == []
    {
      frames := [];
    }

    method Put(f: Frame) returns (ok: bool)
      modifies this
      ensures ok <==> |old(frames)| < DEPTH
      ensures frames == Offered(old(frames), f)
    {
      ok := |frames| < DEPTH;
      if ok {
        frames := frames + [f];
      }
    }

    method Get() returns (f: Option<Frame>)
      modifies this
      ensures f.Some? <==> old(frames) != []
      ensures f.Some? ==> old(frames) == [f.value] + frames
      ensures f.None? ==> frames == []
    {
      if frames == [] {
        return None;
      }
      f := Some(frames[0]);
      frames := frames[1..];
    }
  }

  // The sending side of one stream, with the statistics of its core.
  class Sender {
    const queue: FrameQueue
    var sequence: uint16
    var frames: uint32
    var full: uint32

    constructor (queue: FrameQueue)
      ensures this.queue == queue && View() == Tx(Ready, 0, 0, 0)
    {
      this.queue := queue;
      sequence, frames, full := 0, 0, 0;
    }

    ghost function View(): Tx
      reads this
    {
      Tx(Ready, sequence, frames, full)
    }

    // audio_ipc_send_encoded_frame
    method Send(f: Frame) returns (ok: bool)
      modifies this, queue
      ensures ok <==> |old(queue.frames)| < DEPTH
      ensures queue.frames == Offered(old(queue.frames), f)
      ensures View() == CountSent(old(View()), ok)
    {
      ok := queue.Put(f);
      if ok {
        frames := Wrap32(frames + 1);
      } else {
        full := Wrap32(full + 1);
      }
    }

    /** The end of process_tx_path, once the codec has answered: the frame that it encoded is offered with the next
        number, and counted. Left alone it does the steps of Run in a row. */
    method Process(encoded: Option<seq<uint8>>, now: uint32)
      modifies this, queue
      ensures encoded.None? ==> View() == old(View()) && queue.frames == old(queue.frames)
      ensures encoded.Some? ==>
        var numbered := NumberFrame(old(View()), now, encoded.value);
        && queue.frames == Offered(old(queue.frames), numbered.place.frame)
        && View() == CountSent(numbered, |old(queue.frames)| < DEPTH)
      ensures encoded.Some? ==>
        var room := |old(queue.frames)| < DEPTH;
        && queue.frames == old(queue.frames) + (if room then [Frame(old(sequence), now, encoded.value)] else [])
        && sequence == Wrap16(old(sequence) + 1)
        && frames == (if room then Wrap32(old(frames) + 1) else old(frames))
        && full == (if room then old(full) else Wrap32(old(full) + 1))
    {
      match encoded
      case None =>
      case Some(data) =>
        sequence := Wrap16(sequence + 1);
        var ok := Send(Frame(Wrap16(sequence - 1), now, data));
    }
  }

  // The receiving side.
  class Receiver {
    const queue: FrameQueue
    var frames: uint32
    var empty: uint32

    constructor (queue: FrameQueue)
      ensures this.queue == queue && View() == Rx(Idle, 0, 0)
    {
      this.queue := queue;
      frames, empty := 0, 0;
    }

    ghost function View(): Rx
      reads this
    {
      Rx(Idle, frames, empty)
    }

    /** audio_ipc_receive_from_encoder */
    method Receive() returns (f: Option<Frame>)
      modifies this, queue
      ensures f.Some? <==> old(queue.frames) != []
      ensures f.Some? ==> old(queue.frames) == [f.value] + queue.frames
      ensures f.None? ==> queue.frames == []
      ensures View() == CountPolled(old(View()), f.Some?)
    {
      f := queue.Get();
      if f.Some? {
        frames := Wrap32(frames + 1);
      } else {
        empty := Wrap32(empty + 1);
      }
    }
  }

  // Both cores and the queue, with what happened since the stream was started: the frames that were encoded,
  // which of them the queue took, how many it refused, the frames that were received, and how many polls found
  // nothing.
  datatype State = State(
    queue: seq<Frame>, tx: Tx, rx: Rx,
    encoded: seq<Frame>, sent: seq<nat>, refused: nat, received: seq<Frame>, fruitless: nat)

  datatype Step = Encode(now: uint32, data: seq<uint8>) | Put | CountTx | Get | CountRx

  // A step of one core; a core that is elsewhere does nothing.
  function Do(s: State, a: Step): State
  {
    match a
    case Encode(now, data) =>
      if !s.tx.place.Ready? then s
      else
        var tx := NumberFrame(s.tx, now, data);
        s.(tx := tx, encoded := s.encoded + [tx.place.frame])
    case Put =>
      if !s.tx.place.Holding? || s.encoded == [] then s
      else
        var ok := |s.queue| < DEPTH;
        s.(queue := Offered(s.queue, s.tx.place.frame), tx := s.tx.(place := Tried(ok)),
           sent := if ok then s.sent + [|s.encoded| - 1] else s.sent,
           refused := if ok then s.refused else s.refused + 1)
    case CountTx =>
      if !s.tx.place.Tried? then s else s.(tx := CountSent(s.tx, s.tx.place.ok))
    case Get =>
      if !s.rx.place.Idle? then s
      else if s.queue == [] then s.(rx := s.rx.(place := Polled(false)), fruitless := s.fruitless + 1)
      else s.(queue := s.queue[1..], rx := s.rx.(place := Polled(true)), received := s.received + [s.queue[0]])
    case CountRx =>
      if !s.rx.place.Polled? then s else s.(rx := CountPolled(s.rx, s.rx.place.ok))
  }

  function Run(s: State, steps: seq<Step>): State
  {
    if steps == [] then s else Do(Run(s, steps[..|steps| - 1]), steps[|steps| - 1])
  }

  // The steps of one core in a row are what Sender.Process and Receiver.Receive ensure.
  lemma StepsInARow(s: State, now: uint32, data: seq<uint8>)
    requires s.tx.place.Ready? && s.rx.place.Idle?
    ensures var t := Do(Do(Do(s, Encode(now, data)), Put), CountTx);
      var numbered := NumberFrame(s.tx, now, data);
      && t.queue == Offered(s.queue, numbered.place.frame)
      && t.tx == CountSent(numbered, |s.queue| < DEPTH) && t.rx == s.rx
    ensures var t := Do(Do(s, Get), CountRx);
      && t.rx == CountPolled(s.rx, s.queue != []) && t.tx == s.tx
      && (if s.queue == [] then t.queue == [] else s.queue == [s.queue[0]] + t.queue)
  {
  }

  // A stream has just been started. Frames of an earlier stream may still be in the queue.
  predicate Started(s: State)
  {
    && s.tx.place.Ready? && s.rx.place.Idle? && s.tx.sequence == 0 && |s.queue| <= DEPTH
    && s.encoded == [] && s.sent == [] && s.refused == 0 && s.received == [] && s.fruitless == 0
  }

  function Picked(fs: seq<Frame>, at: seq<nat>): seq<Frame>
    requires forall j :: 0 <= j < |at| ==> at[j] < |fs|
  {
    seq(|at|, j requires 0 <= j < |at| => fs[at[j]])
  }

  function Decided(s: State): int { |s.encoded| - if s.tx.place.Holding? then 1 else 0 }

  predicate Ascending(at: seq<nat>, bound: int)
  {
    && (forall j :: 0 <= j < |at| ==> at[j] < bound)
    && forall j, k :: 0 <= j < k < |at| ==> at[j] < at[k]
  }

  // Frames are numbered from zero, modulo 2^16.
  predicate Numbered(s: State)
  {
    && (forall i :: 0 <= i < |s.encoded| ==> s.encoded[i].sequence == Wrap16(i))
    && s.tx.sequence == Wrap16(|s.encoded|)
    && (s.tx.place.Holding? ==> s.encoded != [] && s.tx.place.frame == s.encoded[|s.encoded| - 1])
  }

  // What was received and what is queued are the frames the queue took.
  predicate InOrder(s: State, stale: seq<Frame>)
  {
    && |s.queue| <= DEPTH && Ascending(s.sent, Decided(s))
    && s.received + s.queue == stale + Picked(s.encoded, s.sent)
    && Decided(s) == |s.sent| + s.refused
  }

  // A 32-bit counter that started at `base` and has `total` things to count, but one perhaps later.
  predicate Counts(counter: uint32, later: bool, base: uint32, total: int)
  {
    Wrap32(counter + if later then 1 else 0) == Wrap32(base + total)
  }

  lemma CountNow(counter: uint32, base: uint32, total: int)
    requires Counts(counter, true, base, total)
    ensures Counts(Wrap32(counter + 1), false, base, total)
  {
  }

  lemma CountLater(counter: uint32, base: uint32, total: int)
    requires Counts(counter, false, base, total)
    ensures Counts(counter, true, base, total + 1)
  {
    WrapStep(base + total, 1);
    WrapStep(counter, 1);
  }

  // The counters lag behind by what a core is about to count.
  predicate Counted(s: State, start: State)
  {
    && Counts(s.tx.frames, s.tx.place == Tried(true), start.tx.frames, |s.sent|)
    && Counts(s.tx.full, s.tx.place == Tried(false), start.tx.full, s.refused)
    && Counts(s.rx.frames, s.rx.place == Polled(true), start.rx.frames, |s.received|)
    && Counts(s.rx.empty, s.rx.place == Polled(false), start.rx.empty, s.fruitless)
  }

  lemma NumberedStep(s: State, a: Step)
    requires Numbered(s)
    ensures Numbered(Do(s, a))
  {
    hide Wrap16;
    WrapNext(|s.encoded|);
  }

  lemma WrapNext(n: nat)
    ensures Wrap16(Wrap16(n) + 1) == Wrap16(n + 1)
  {
  }

  lemma PickedMore(fs: seq<Frame>, more: seq<Frame>, at: seq<nat>)
    requires fs <= more && forall j :: 0 <= j < |at| ==> at[j] < |fs|
    ensures Picked(more, at) == Picked(fs, at)
  {
  }

  lemma PickedPush(fs: seq<Frame>, at: seq<nat>, n: nat)
    requires n < |fs| && forall j :: 0 <= j < |at| ==> at[j] < |fs|
    ensures Picked(fs, at + [n]) == Picked(fs, at) + [fs[n]]
  {
  }

  lemma AscendingMore(at: seq<nat>, bound: int, n: nat)
    requires Ascending(at, bound) && n >= bound
    ensures Ascending(at + [n], n + 1) && Ascending(at, n + 1)
  {
  }

  // The positions stay in order, and every frame is decided once.
  lemma SentStep(s: State, a: Step)
    requires Numbered(s) && Ascending(s.sent, Decided(s)) && Decided(s) == |s.sent| + s.refused
    ensures var t := Do(s, a); Ascending(t.sent, Decided(t)) && Decided(t) == |t.sent| + t.refused
  {
    hide Ascending;
    if a == Put && s.tx.place.Holding? {
      AscendingMore(s.sent, Decided(s), |s.encoded| - 1);
    }
  }

  lemma EncodeKeeps(s: State, now: uint32, data: seq<uint8>, stale: seq<Frame>)
    requires Ascending(s.sent, |s.encoded|) && s.received + s.queue == stale + Picked(s.encoded, s.sent)
    ensures var t := Do(s, Encode(now, data));
      Ascending(t.sent, |t.encoded|) && t.received + t.queue == stale + Picked(t.encoded, t.sent)
  {
    PickedMore(s.encoded, Do(s, Encode(now, data)).encoded, s.sent);
  }

  lemma PutKeeps(s: State, stale: seq<Frame>)
    requires s.tx.place.Holding? && s.encoded != [] && s.tx.place.frame == s.encoded[|s.encoded| - 1]
    requires Ascending(s.sent, |s.encoded| - 1) && s.received + s.queue == stale + Picked(s.encoded, s.sent)
    ensures var t := Do(s, Put);
      Ascending(t.sent, |t.encoded|) && t.received + t.queue == stale + Picked(t.encoded, t.sent)
  {
    hide Ascending;
    var n, f := |s.encoded| - 1, s.tx.place.frame;
    AscendingMore(s.sent, n, n);
    PickedPush(s.encoded, s.sent, n);
    assert s.received + (s.queue + [f]) == (s.received + s.queue) + [f];
    assert stale + (Picked(s.encoded, s.sent) + [f]) == (stale + Picked(s.encoded, s.sent)) + [f];
  }

  lemma GetKeeps(s: State)
    ensures var t := Do(s, Get);
      t.received + t.queue == s.received + s.queue && t.encoded == s.encoded && t.sent == s.sent
  {
    if s.queue != [] {
      assert s.queue == [s.queue[0]] + s.queue[1..];
    }
  }

  lemma InOrderStep(s: State, a: Step, stale: seq<Frame>)
    requires Numbered(s) && InOrder(s, stale)
    ensures InOrder(Do(s, a), stale)
  {
    hide Picked;
    SentStep(s, a);
    match a
    case Encode(now, data) => EncodeKeeps(s, now, data, stale);
    case Put =>
      if s.tx.place.Holding? {
        PutKeeps(s, stale);
      }
    case Get => GetKeeps(s);
    case _ =>
  }

  lemma CountedStep(s: State, a: Step, start: State)
    requires Counted(s, start)
    ensures Counted(Do(s, a), start)
  {
    hide Counts;
    match a
    case Put =>
      if s.tx.place.Holding? {
        if |s.queue| < DEPTH {
          CountLater(s.tx.frames, start.tx.frames, |s.sent|);
        } else {
          CountLater(s.tx.full, start.tx.full, s.refused);
        }
      }
    case CountTx =>
      if s.tx.place == Tried(true) {
        CountNow(s.tx.frames, start.tx.frames, |s.sent|);
      } else if s.tx.place == Tried(false) {
        CountNow(s.tx.full, start.tx.full, s.refused);
      }
    case Get =>
      if s.rx.place.Idle? {
        if s.queue != [] {
          CountLater(s.rx.frames, start.rx.frames, |s.received|);
        } else {
          CountLater(s.rx.empty, start.rx.empty, s.fruitless);
        }
      }
    case CountRx =>
      if s.rx.place == Polled(true) {
        CountNow(s.rx.frames, start.rx.frames, |s.received|);
      } else if s.rx.place == Polled(false) {
        CountNow(s.rx.empty, start.rx.empty, s.fruitless);
      }
    case _ =>
  }

  lemma {:induction false} RunHolds(start: State, steps: seq<Step>)
    requires Started(start)
    ensures var s := Run(start, steps); Numbered(s) && InOrder(s, start.queue) && Counted(s, start)
    decreases |steps|
  {
    if steps == [] {
      assert start.queue == start.queue + Picked([], []);
    } else {
      var n := |steps| - 1;
      RunHolds(start, steps[..n]);
      var s := Run(start, steps[..n]);
      NumberedStep(s, steps[n]);
      InOrderStep(s, steps[n], start.queue);
      CountedStep(s, steps[n], start);
    }
  }

  // What the codec gave: the arguments of the steps that encoded a frame, since the audio core was ready for one.
  function Given(start: State, steps: seq<Step>): seq<(uint32, seq<uint8>)>
  {
    if steps == [] then []
    else
      var front, last := steps[..|steps| - 1], steps[|steps| - 1];
      Given(start, front) +
      if last.Encode? && Run(start, front).tx.place.Ready? then [(last.now, last.data)] else []
  }

  ghost predicate Carry(encoded: seq<Frame>, given: seq<(uint32, seq<uint8>)>)
  {
    && |encoded| == |given|
    && forall i :: 0 <= i < |encoded| ==> encoded[i].timestamp == given[i].0 && encoded[i].data == given[i].1
  }

  lemma CarryStep(s: State, a: Step, given: seq<(uint32, seq<uint8>)>)
    requires Carry(s.encoded, given)
    ensures Carry(Do(s, a).encoded, given + if a.Encode? && s.tx.place.Ready? then [(a.now, a.data)] else [])
  {
    hide Offered, CountSent, CountPolled;
  }

  /** The encoded frames carry what the codec gave, each the time and the data of its own step. */
  lemma {:induction false} EncodedAreGiven(start: State, steps: seq<Step>)
    requires Started(start)
    ensures Carry(Run(start, steps).encoded, Given(start, steps))
    decreases |steps|
  {
    hide Do, Carry;
    if steps == [] {
      assert Carry([], []) by { NothingCarried(); }
    } else {
      EncodedAreGiven(start, steps[..|steps| - 1]);
      CarryStep(Run(start, steps[..|steps| - 1]), steps[|steps| - 1], Given(start, steps[..|steps| - 1]));
    }
  }

  lemma NothingCarried()
    ensures Carry([], [])
  {
  }

  /** Whatever the interleaving: the received frames, after those left over from before, are some of the encoded
      frames in order, and those are what the codec gave, with its times, numbered consecutively; no more than four
      are under way; and every encoded frame that the queue has decided about was either taken or refused. */
  lemma ReceivedInOrder(start: State, steps: seq<Step>)
    requires Started(start)
    ensures var s := Run(start, steps);
      && |s.queue| <= DEPTH
      && Ascending(s.sent, |s.encoded|)
      && s.received <= start.queue + Picked(s.encoded, s.sent)
      && |s.encoded| == |Given(start, steps)|
      && (forall i :: 0 <= i < |s.encoded| ==>
            s.encoded[i] == Frame(Wrap16(i), Given(start, steps)[i].0, Given(start, steps)[i].1))
      && Decided(s) == |s.sent| + s.refused
  {
    hide Run, Given, Counted;
    EncodedAreGiven(start, steps);
    RunHolds(start, steps);
    var s := Run(start, steps);
    assert s.received <= s.received + s.queue;
  }

  /** At every moment: of the frames left over at the start and those encoded since, the ones that were not received are
      those that the queue refused, which `tx_queue_full` counts, those still queued, and one in the sender's hands.
      The counter may be about to count one more. */
  lemma MissingAreCounted(start: State, steps: seq<Step>)
    requires Started(start)
    ensures var s := Run(start, steps);
      && |start.queue| + |s.encoded| - |s.received|
           == s.refused + |s.queue| + (if s.tx.place.Holding? then 1 else 0)
      && Wrap32(s.tx.full + (if s.tx.place == Tried(false) then 1 else 0) - start.tx.full) == Wrap32(s.refused)
  {
    hide Numbered, Run;
    RunHolds(start, steps);
    var s := Run(start, steps);
    assert |s.received + s.queue| == |start.queue| + |s.sent|;
    CountDifference(s.tx.full, s.tx.place == Tried(false), start.tx.full, s.refused);
  }

  lemma CountDifference(counter: uint32, later: bool, base: uint32, total: int)
    requires Counts(counter, later, base, total)
    ensures Wrap32(counter + (if later then 1 else 0) - base) == Wrap32(total)
  {
  }

  /** If the counters agreed with the queue at the start, the sender's count is the receiver's count and what is
      queued, modulo 2^32, but for a frame that one side has handled and not yet counted. */
  lemma CountersAgree(start: State, steps: seq<Step>)
    requires Started(start) && Wrap32(start.rx.frames + |start.queue|) == start.tx.frames
    ensures var s := Run(start, steps);
      Wrap32(s.tx.frames + if s.tx.place == Tried(true) then 1 else 0)
        == Wrap32(s.rx.frames + |s.queue| + if s.rx.place == Polled(true) then 1 else 0)
  {
    hide Numbered, Run, Counts, Wrap32;
    RunHolds(start, steps);
    var s := Run(start, steps);
    assert |s.received + s.queue| == |start.queue| + |s.sent|;
    var (sending, receiving) := (s.tx.place == Tried(true), s.rx.place == Polled(true));
    CountsMeet(s.tx.frames, sending, start.tx.frames, |s.sent|, |s.queue|,
               s.rx.frames, receiving, start.rx.frames, |s.received|, |start.queue|);
  }

  lemma CountsMeet(out: uint32, sending: bool, out0: uint32, sent: int, queue: int,
                   got: uint32, receiving: bool, got0: uint32, received: int, queue0: int)
    requires Counts(out, sending, out0, sent) && Counts(got, receiving, got0, received)
    requires received + queue == queue0 + sent && Wrap32(got0 + queue0) == out0
    ensures Wrap32(out + if sending then 1 else 0) == Wrap32(got + queue + if receiving then 1 else 0)
  {
    hide Wrap32;
    WrapStep(got + if receiving then 1 else 0, queue);
    WrapStep(got0 + received, queue);
    WrapStep(got0 + queue0, sent);
    assert got0 + queue0 + sent == got0 + received + queue;
    assert got + (if receiving then 1 else 0) + queue == got + queue + if receiving then 1 else 0;
  }

  /** Sequence numbers reveal every loss shorter than their turn: between neighbours among the frames taken, the
      numbers leap by one more than the number of frames refused in between. */
  lemma GapsAreLosses(start: State, steps: seq<Step>, j: nat)
    requires Started(start)
    requires var s := Run(start, steps); j + 1 < |s.sent| && s.sent[j + 1] - s.sent[j] <= U16
    ensures var s := Run(start, steps);
      && Ascending(s.sent, |s.encoded|)
      && var lost := s.sent[j + 1] - s.sent[j] - 1;
      && lost == Wrap16(s.encoded[s.sent[j + 1]].sequence - s.encoded[s.sent[j]].sequence - 1)
      && forall i :: s.sent[j] < i < s.sent[j + 1] ==> i !in s.sent
  {
    hide Run, Wrap16;
    RunHolds(start, steps);
    var s := Run(start, steps);
    var a, b := s.sent[j], s.sent[j + 1];
    Wrap16Distance(a, b);
    NoneBetween(s.sent, |s.encoded|, j);
  }

  lemma NoneBetween(at: seq<nat>, bound: int, j: nat)
    requires Ascending(at, bound) && j + 1 < |at|
    ensures forall i :: at[j] < i < at[j + 1] ==> i !in at
  {
    forall k | 0 <= k < |at| ensures !(at[j] < at[k] < at[j + 1]) {
      if k < j || k > j + 1 {
        assert if k < j then at[k] < at[j] else at[j + 1] < at[k];
      }
    }
  }

  lemma Wrap16Distance(a: int, b: int)
    requires 1 <= b - a <= U16
    ensures Wrap16(Wrap16(b) - Wrap16(a) - 1) == b - a - 1
  {
  }
}
