/**
 The blocking calls i2s_stream_write and i2s_stream_read against the interrupt handler on the other
 side of the ring, in `i2s_stream.c`. The handler preempts the calling task between any two of its
 steps and runs to its end; the task sees time pass and a binary semaphore. One direction is modelled
 at a time: in direction Tx the task writes the ring and the handler reads it, in direction Rx the
 other way round.
 */
module StreamRace {
  import opened Words
  import SR = SampleRace

  datatype Direction = Tx | Rx

  const FOREVER: uint32 := 0xFFFF_FFFF

  // What the caller asked for: the samples to write (direction Tx), how many, for how many ticks.
  datatype Request = Request(data: seq<int16>, wanted: nat, ticks: uint32, started: nat)

  // Where the loop of the call is; `done` holds the samples it has moved so far.
  datatype Call =
    | Idle
    | Trying(req: Request, done: seq<int16>)
    | Moving(req: Request, done: seq<int16>)
    | Checking(req: Request, done: seq<int16>)
    | Blocked(req: Request, done: seq<int16>, until: nat)

  // A finished call: what was asked for, the samples it moved, and when it returned.
  datatype Finish = Finish(req: Request, done: seq<int16>, ended: nat)

  // Where the interrupt handler is; `block` is its DMA buffer, `fifo` what the hardware FIFO held (direction Rx).
  datatype Isr =
    | Off
    | Running(block: seq<int16>, fifo: seq<int16>)
    | Ended(block: seq<int16>, fifo: seq<int16>, moved: nat)

  // One finished run of the handler: its DMA buffer, the FIFO it drained, and how many samples went through the ring.
  datatype Block = Block(samples: seq<int16>, fifo: seq<int16>, moved: nat)

  // What the current call has been through: finished rounds of the loop, those that moved samples, those
  // since then that did not, wake-ups since then that found nothing to move, and whether a wait timed out.
  datatype Tally = Tally(rounds: nat, gains: nat, idle: nat, stale: nat, expired: bool)

  datatype State = State(
    dir: Direction, size: nat, ring: SR.State, on: bool,
    call: Call, isr: Isr, token: bool, now: nat, tally: Tally,
    frames: uint32, shorts: uint32, blocks: seq<Block>, returned: seq<int16>, calls: seq<Finish>)

  datatype Action =
    | Start
    | Stop
    | Tick
    | Enter(data: seq<int16>, wanted: nat, ticks: uint32)
    | BeginMove
    | MoveSample
    | EndMove
    | Check
    | Wake
    | TimeOut
    | IsrBegin(fifo: seq<int16>)
    | IsrMove
    | IsrEnd
    | IsrFinish

  // i2s_stream_init: `size` samples a DMA block and a ring of four blocks.
  const RING_BLOCKS := 4
  const MAX_BLOCK := 960

  function Init(dir: Direction, size: nat, buf: seq<int16>, token: bool): State
  {
    State(dir, size, SR.Init(buf), false, Idle, Off, token, 0, Tally(0, 0, 0, 0, false), 0, 0, [], [], [])
  }

  // What the task can move in one go: free space when it writes, waiting samples when it reads.
  function Pool(s: State): int
  {
    if s.dir == Tx then |s.ring.buf| - s.ring.count else s.ring.count
  }

  function BeginOf(s: State): SR.Action
    requires s.call.Trying? && |s.call.done| <= |s.call.req.data|
  {
    if s.dir == Tx then SR.BeginWrite(s.call.req.data[|s.call.done|..])
    else SR.BeginRead(Wrap32(s.call.req.wanted - |s.call.done|))
  }

  function MoveOf(s: State): SR.Action { if s.dir == Tx then SR.StoreSample else SR.FetchSample }
  function EndOf(s: State): SR.Action { if s.dir == Tx then SR.EndWrite else SR.EndRead }

  function IsrBeginOf(s: State, fifo: seq<int16>): SR.Action
  {
    if s.dir == Tx then SR.BeginRead(s.size) else SR.BeginWrite(Padded(fifo, s.size))
  }

  function IsrMoveOf(s: State): SR.Action { if s.dir == Tx then SR.FetchSample else SR.StoreSample }
  function IsrEndOf(s: State): SR.Action { if s.dir == Tx then SR.EndRead else SR.EndWrite }

  // The first `n` samples, filled up with silence.
  function Padded(xs: seq<int16>, n: nat): (r: seq<int16>)
    ensures |r| == n
    ensures forall i :: 0 <= i < n ==> r[i] == if i < |xs| then xs[i] else 0
  {
    seq(n, i requires 0 <= i < n => if i < |xs| then xs[i] else 0)
  }

  // The samples the ring operation of the task has moved, when it ends.
  function Moved(s: State): seq<int16>
    requires SR.WellFormed(s.ring)
  {
    if s.dir == Tx then SR.Unpublished(s.ring) else SR.Unreturned(s.ring)
  }

  // The samples the ring operation of the handler has moved.
  function IsrMoved(s: State): seq<int16>
    requires SR.WellFormed(s.ring)
  {
    if s.dir == Tx then SR.Unreturned(s.ring) else SR.Unpublished(s.ring)
  }

  // `xTaskGetTickCount() - start_ticks` on 32-bit counters.
  function Elapsed(s: State, req: Request): uint32
  {
    Wrap32(Wrap32(s.now) - Wrap32(req.started))
  }

  predicate Enabled(s: State, a: Action)
  {
    && SR.WellFormed(s.ring)
    && (a.IsrMove? || a.IsrEnd? || a.IsrFinish? || a.Tick? || s.isr.Off?)
    && match a
       case Start => s.call.Idle? && !s.on && SR.Enabled(s.ring, SR.Clear)
       case Stop => true
       case Tick => true
       case Enter(data, wanted, ticks) => s.call.Idle? && s.on && 0 < wanted < U16 && |data| == wanted
       case BeginMove => s.call.Trying? && |s.call.done| <= |s.call.req.data| && SR.Enabled(s.ring, BeginOf(s))
       case MoveSample => s.call.Moving? && SR.Enabled(s.ring, MoveOf(s))
       case EndMove => s.call.Moving? && SR.Enabled(s.ring, EndOf(s))
       case Check => s.call.Checking?
       case Wake => s.call.Blocked? && s.token
       case TimeOut => s.call.Blocked? && s.call.req.ticks != FOREVER && !s.token && s.call.until <= s.now
       case IsrBegin(fifo) => s.on && SR.Enabled(s.ring, IsrBeginOf(s, fifo))
       case IsrMove => s.isr.Running? && SR.Enabled(s.ring, IsrMoveOf(s))
       case IsrEnd => s.isr.Running? && SR.Enabled(s.ring, IsrEndOf(s))
       case IsrFinish => s.isr.Ended?
  }

  function Step(s: State, a: Action): State
    requires Enabled(s, a)
  {
    match a
    case Start =>
      s.(ring := SR.Step(s.ring, SR.Clear), on := true, frames := 0, shorts := 0, blocks := [], returned := [],
         calls := [])
    case Stop => s.(on := false)
    case Tick => s.(now := s.now + 1)
    case Enter(data, wanted, ticks) =>
      s.(call := Trying(Request(data, wanted, ticks, s.now), []), tally := Tally(0, 0, 0, 0, false))
    case BeginMove =>
      s.(ring := SR.Step(s.ring, BeginOf(s)), call := Moving(s.call.req, s.call.done))
    case MoveSample => s.(ring := SR.Step(s.ring, MoveOf(s)))
    case EndMove =>
      s.(ring := SR.Step(s.ring, EndOf(s)), call := Checking(s.call.req, s.call.done + Moved(s)),
         tally := Round(s.tally, |Moved(s)|))
    case Check =>
      var req, elapsed := s.call.req, Elapsed(s, s.call.req);
      if |s.call.done| >= req.wanted || req.ticks == 0 || (elapsed >= req.ticks && req.ticks != FOREVER) then
        s.(call := Idle, returned := s.returned + s.call.done, calls := s.calls + [Finish(req, s.call.done, s.now)])
      else
        s.(call := Blocked(req, s.call.done, s.now + if req.ticks == FOREVER then FOREVER else req.ticks - elapsed))
    case Wake =>
      s.(token := false, call := Trying(s.call.req, s.call.done),
         tally := if Pool(s) <= 0 then s.tally.(stale := s.tally.stale + 1) else s.tally)
    case TimeOut =>
      s.(call := Trying(s.call.req, s.call.done), tally := s.tally.(expired := true))
    case IsrBegin(fifo) =>
      s.(ring := SR.Step(s.ring, IsrBeginOf(s, fifo)),
         isr := Running(if s.dir == Tx then [] else Padded(fifo, s.size), fifo))
    case IsrMove => s.(ring := SR.Step(s.ring, IsrMoveOf(s)))
    case IsrEnd =>
      var block := if s.dir == Tx then Padded(IsrMoved(s), s.size) else s.isr.block;
      s.(ring := SR.Step(s.ring, IsrEndOf(s)), isr := Ended(block, s.isr.fifo, |IsrMoved(s)|))
    case IsrFinish =>
      s.(isr := Off, token := true, frames := Wrap32(s.frames + 1),
         shorts := if s.isr.moved < s.size then Wrap32(s.shorts + 1) else s.shorts,
         blocks := s.blocks + [Block(s.isr.block, s.isr.fifo, s.isr.moved)])
  }

  // A round of the loop that moved `n` samples.
  function Round(t: Tally, n: nat): Tally
  {
    if n > 0 then Tally(t.rounds + 1, t.gains + 1, 0, 0, t.expired)
    else t.(rounds := t.rounds + 1, idle := t.idle + 1)
  }

  ghost predicate CanRun(s: State, actions: seq<Action>)
    decreases |actions|
  {
    actions == [] || (Enabled(s, actions[0]) && CanRun(Step(s, actions[0]), actions[1..]))
  }

  ghost function Run(s: State, actions: seq<Action>): State
    requires CanRun(s, actions)
    decreases |actions|
  {
    if actions == [] then s else Run(Step(s, actions[0]), actions[1..])
  }

  // The samples of the call in progress.
  function InCall(s: State): seq<int16>
  {
    if s.call.Idle? then [] else s.call.done
  }

  // The samples that passed through the ring in finished runs of the handler.
  function Payload(blocks: seq<Block>): seq<int16>
    requires forall b :: b in blocks ==> b.moved <= |b.samples|
  {
    if blocks == [] then []
    else Payload(blocks[..|blocks| - 1]) + blocks[|blocks| - 1].samples[..blocks[|blocks| - 1].moved]
  }

  function ShortBlocks(blocks: seq<Block>, size: nat): nat
  {
    if blocks == [] then 0
    else ShortBlocks(blocks[..|blocks| - 1], size) + if blocks[|blocks| - 1].moved < size then 1 else 0
  }

  // A DMA buffer as the handler leaves it.
  predicate GoodBlock(s: State, b: Block)
  {
    && |b.samples| == s.size && b.moved <= s.size
    && (s.dir == Tx ==> forall i :: b.moved <= i < s.size ==> b.samples[i] == 0)
  }

  // What went through the ring at the task's side and at the handler's side.
  function TaskSide(s: State): seq<int16> { if s.dir == Tx then s.ring.wrote else s.ring.got }
  function IsrSide(s: State): seq<int16> { if s.dir == Tx then s.ring.got else s.ring.wrote }

  // The half of the ring that belongs to the task, and the half that belongs to the handler.
  ghost predicate CallShape(s: State)
    requires SR.WellFormed(s.ring)
  {
    && (!s.call.Idle? ==> |s.call.done| <= s.call.req.wanted == |s.call.req.data| < U16)
    && (s.call.Trying? || s.call.Moving? || s.call.Blocked? ==> |s.call.done| < s.call.req.wanted)
    && (s.dir == Tx ==> (s.call.Moving? <==> s.ring.writer.Storing?))
    && (s.dir == Tx && s.call.Moving? ==> s.ring.writer.data == s.call.req.data[|s.call.done|..])
    && (s.dir == Rx ==> (s.call.Moving? <==> s.ring.reader.Fetching?))
    && (s.dir == Rx && s.call.Moving? ==> s.ring.reader.limit <= s.call.req.wanted - |s.call.done|)
  }

  // What the calls returned so far, with the call in progress, is what went through their half.
  ghost predicate CallHistory(s: State)
  {
    && TaskSide(s) == s.returned + InCall(s)
    && (!s.call.Idle? && s.dir == Tx ==> s.call.done <= s.call.req.data)
  }

  ghost predicate IsrShape(s: State)
    requires SR.WellFormed(s.ring)
  {
    && (s.isr.Ended? ==> GoodBlock(s, Block(s.isr.block, s.isr.fifo, s.isr.moved)))
    && (s.dir == Tx ==> (s.isr.Running? <==> s.ring.reader.Fetching?))
    && (s.dir == Tx && s.isr.Running? ==> s.ring.reader.limit <= s.size)
    && (s.dir == Rx ==> (s.isr.Running? <==> s.ring.writer.Storing?))
    && (s.dir == Rx && s.isr.Running? ==> |s.isr.block| == s.size && s.ring.writer.data == s.isr.block)
  }

  // What the finished blocks carried, with the block in progress, is what went through the handler's half.
  ghost predicate IsrHistory(s: State)
  {
    && (forall b :: b in s.blocks ==> GoodBlock(s, b))
    && IsrSide(s) == Payload(s.blocks) + InIsr(s)
    && s.frames == Wrap32(|s.blocks|) && s.shorts == Wrap32(ShortBlocks(s.blocks, s.size))
  }

  function InIsr(s: State): seq<int16>
  {
    if s.isr.Ended? && s.isr.moved <= |s.isr.block| then s.isr.block[..s.isr.moved] else []
  }

  ghost predicate Inv(s: State)
  {
    && SR.Inv(s.ring) && 0 < s.size <= MAX_BLOCK && |s.ring.buf| == RING_BLOCKS * s.size
    && CallShape(s) && CallHistory(s) && IsrShape(s) && IsrHistory(s)
  }

  // A step that leaves one side alone keeps that side's part of the invariant.
  lemma KeepsIsr(s: State, t: State)
    requires SR.WellFormed(s.ring) && IsrShape(s) && IsrHistory(s)
    requires SR.WellFormed(t.ring) && t.dir == s.dir && t.size == s.size && IsrSide(t) == IsrSide(s)
    requires t.isr == s.isr && t.blocks == s.blocks && t.frames == s.frames && t.shorts == s.shorts
    requires if s.dir == Tx then t.ring.reader == s.ring.reader else t.ring.writer == s.ring.writer
    ensures IsrShape(t) && IsrHistory(t)
  {
  }

  lemma KeepsCall(s: State, t: State)
    requires SR.WellFormed(s.ring) && CallShape(s) && CallHistory(s)
    requires SR.WellFormed(t.ring) && t.dir == s.dir && TaskSide(t) == TaskSide(s)
    requires t.call == s.call && t.returned == s.returned
    requires if s.dir == Tx then t.ring.writer == s.ring.writer else t.ring.reader == s.ring.reader
    ensures CallShape(t) && CallHistory(t)
  {
  }

  lemma PayloadGrows(blocks: seq<Block>, b: Block)
    requires forall c :: c in blocks + [b] ==> c.moved <= |c.samples|
    ensures forall c :: c in blocks ==> c.moved <= |c.samples|
    ensures Payload(blocks + [b]) == Payload(blocks) + b.samples[..b.moved]
  {
    assert forall c :: c in blocks ==> c in blocks + [b];
    assert (blocks + [b])[..|blocks|] == blocks;
  }

  lemma ShortBlocksGrow(blocks: seq<Block>, b: Block, size: nat)
    ensures ShortBlocks(blocks + [b], size) == ShortBlocks(blocks, size) + if b.moved < size then 1 else 0
  {
    assert (blocks + [b])[..|blocks|] == blocks;
  }

  // The steps of the task that use the ring.
  lemma TaskRingInv(s: State, a: Action)
    requires Inv(s) && Enabled(s, a) && (a.BeginMove? || a.MoveSample? || a.EndMove?)
    ensures SR.Inv(Step(s, a).ring) && IsrShape(Step(s, a)) && IsrHistory(Step(s, a))
  {
    hide SR.Inv, Padded, CallHistory, IsrHistory, IsrShape;
    var ringStep := if a.BeginMove? then BeginOf(s) else if a.MoveSample? then MoveOf(s) else EndOf(s);
    SR.StepInv(s.ring, ringStep);
    KeepsIsr(s, Step(s, a));
  }

  lemma EndMoveHistory(s: State)
    requires Inv(s) && Enabled(s, EndMove)
    ensures CallHistory(Step(s, EndMove))
  {
    var t := Step(s, EndMove);
    assert TaskSide(t) == TaskSide(s) + Moved(s);
    assert (s.returned + s.call.done) + Moved(s) == s.returned + (s.call.done + Moved(s));
    if s.dir == Tx {
      assert s.call.done + s.call.req.data[|s.call.done|..] == s.call.req.data;
    }
  }

  lemma MoveShape(s: State, a: Action)
    requires Inv(s) && Enabled(s, a) && (a.BeginMove? || a.MoveSample?) && SR.WellFormed(Step(s, a).ring)
    ensures CallShape(Step(s, a)) && CallHistory(Step(s, a))
  {
  }

  lemma EndMoveShape(s: State)
    requires Inv(s) && Enabled(s, EndMove) && SR.WellFormed(Step(s, EndMove).ring)
    ensures CallShape(Step(s, EndMove))
  {
    assert |Moved(s)| <= s.call.req.wanted - |s.call.done|;
  }

  lemma TaskStepInv(s: State, a: Action)
    requires Inv(s) && Enabled(s, a) && (a.BeginMove? || a.MoveSample? || a.EndMove?)
    ensures Inv(Step(s, a))
  {
    TaskRingInv(s, a);
    if a.EndMove? {
      EndMoveShape(s);
      EndMoveHistory(s);
    } else {
      MoveShape(s, a);
    }
  }

  // The other steps of the task.
  lemma CallStepInv(s: State, a: Action)
    requires Inv(s) && Enabled(s, a)
    requires a.Stop? || a.Tick? || a.Enter? || a.Check? || a.Wake? || a.TimeOut?
    ensures Inv(Step(s, a))
  {
    hide SR.Inv, IsrShape, IsrHistory, Elapsed, Pool;
    var t := Step(s, a);
    KeepsIsr(s, t);
    assert t.returned + InCall(t) == s.returned + InCall(s);
  }

  lemma StartInv(s: State)
    requires Inv(s) && Enabled(s, Start)
    ensures Inv(Step(s, Start))
  {
    SR.StepInv(s.ring, SR.Clear);
    assert Step(s, Start).returned + InCall(s) == [];
  }

  // The steps of the handler that use the ring.
  lemma IsrRingInv(s: State, a: Action)
    requires Inv(s) && Enabled(s, a) && (a.IsrBegin? || a.IsrMove? || a.IsrEnd?)
    ensures SR.Inv(Step(s, a).ring) && CallShape(Step(s, a)) && CallHistory(Step(s, a))
  {
    hide SR.Inv, Padded, CallShape, CallHistory, IsrHistory, IsrShape;
    var ringStep := if a.IsrBegin? then IsrBeginOf(s, a.fifo) else if a.IsrMove? then IsrMoveOf(s) else IsrEndOf(s);
    SR.StepInv(s.ring, ringStep);
    KeepsCall(s, Step(s, a));
  }

  lemma IsrEndHistory(s: State)
    requires Inv(s) && Enabled(s, IsrEnd)
    ensures IsrShape(Step(s, IsrEnd)) && IsrHistory(Step(s, IsrEnd))
  {
    var t := Step(s, IsrEnd);
    assert IsrSide(t) == IsrSide(s) + IsrMoved(s);
    assert |IsrMoved(s)| <= s.size;
    assert t.isr.block[..t.isr.moved] == IsrMoved(s);
    assert IsrSide(s) == Payload(s.blocks);
  }

  lemma IsrMoveHistory(s: State, a: Action)
    requires Inv(s) && Enabled(s, a) && (a.IsrBegin? || a.IsrMove?) && SR.WellFormed(Step(s, a).ring)
    ensures IsrShape(Step(s, a)) && IsrHistory(Step(s, a))
  {
    hide SR.Inv, CallShape, CallHistory;
  }

  lemma IsrSizes(s: State, a: Action)
    requires Inv(s) && Enabled(s, a) && (a.IsrBegin? || a.IsrMove? || a.IsrEnd? || a.IsrFinish?)
    ensures Step(s, a).size == s.size && |Step(s, a).ring.buf| == |s.ring.buf|
  {
    hide SR.Inv, CallShape, CallHistory, IsrShape, IsrHistory;
  }

  lemma IsrStepInv(s: State, a: Action)
    requires Inv(s) && Enabled(s, a) && (a.IsrBegin? || a.IsrMove? || a.IsrEnd?)
    ensures Inv(Step(s, a))
  {
    hide SR.Inv, CallShape, CallHistory, IsrShape, IsrHistory, Step, Enabled;
    IsrRingInv(s, a);
    IsrSizes(s, a);
    RingWellFormed(Step(s, a));
    if a.IsrEnd? {
      IsrEndHistory(s);
    } else {
      IsrMoveHistory(s, a);
    }
  }

  lemma RingWellFormed(s: State)
    requires SR.Inv(s.ring)
    ensures SR.WellFormed(s.ring)
  {
  }

  lemma IsrFinishBlocks(s: State)
    requires SR.WellFormed(s.ring) && IsrShape(s) && IsrHistory(s) && Enabled(s, IsrFinish)
    ensures forall b :: b in Step(s, IsrFinish).blocks ==> GoodBlock(Step(s, IsrFinish), b)
    ensures IsrSide(Step(s, IsrFinish)) == Payload(Step(s, IsrFinish).blocks)
  {
    var t := Step(s, IsrFinish);
    var last := Block(s.isr.block, s.isr.fifo, s.isr.moved);
    forall b | b in t.blocks ensures GoodBlock(t, b) {
      assert b == last || b in s.blocks;
    }
    PayloadGrows(s.blocks, last);
  }

  lemma IsrFinishCounters(s: State)
    requires SR.WellFormed(s.ring) && IsrHistory(s) && Enabled(s, IsrFinish)
    ensures Step(s, IsrFinish).frames == Wrap32(|s.blocks| + 1)
    ensures Step(s, IsrFinish).shorts == Wrap32(ShortBlocks(s.blocks, s.size) + if s.isr.moved < s.size then 1 else 0)
  {
    WrapStep(|s.blocks|, 1);
    if s.isr.moved < s.size {
      WrapStep(ShortBlocks(s.blocks, s.size), 1);
    }
  }

  lemma IsrFinishInv(s: State)
    requires Inv(s) && Enabled(s, IsrFinish)
    ensures Inv(Step(s, IsrFinish))
  {
    hide SR.Inv, CallShape, CallHistory, Payload, ShortBlocks;
    var t := Step(s, IsrFinish);
    RingWellFormed(s);
    KeepsCall(s, t);
    IsrFinishBlocks(s);
    IsrFinishCounters(s);
    ShortBlocksGrow(s.blocks, Block(s.isr.block, s.isr.fifo, s.isr.moved), s.size);
    assert Payload(t.blocks) + [] == Payload(t.blocks);
  }

  lemma StepInv(s: State, a: Action)
    requires Inv(s) && Enabled(s, a)
    ensures Inv(Step(s, a))
  {
    hide Inv, Step, Enabled;
    match a
    case BeginMove => TaskStepInv(s, a);
    case MoveSample => TaskStepInv(s, a);
    case EndMove => TaskStepInv(s, a);
    case Start => StartInv(s);
    case IsrBegin(_) => IsrStepInv(s, a);
    case IsrMove => IsrStepInv(s, a);
    case IsrEnd => IsrStepInv(s, a);
    case IsrFinish => IsrFinishInv(s);
    case _ => CallStepInv(s, a);
  }

  lemma {:induction false} RunInv(s: State, actions: seq<Action>)
    requires Inv(s) && CanRun(s, actions)
    ensures Inv(Run(s, actions))
    decreases |actions|
  {
    if actions != [] {
      StepInv(s, actions[0]);
      RunInv(Step(s, actions[0]), actions[1..]);
    }
  }

  lemma InitInv(dir: Direction, size: nat, buf: seq<int16>, token: bool)
    requires 0 < size <= MAX_BLOCK && |buf| == RING_BLOCKS * size
    ensures Inv(Init(dir, size, buf, token)) && TallyInv(Init(dir, size, buf, token))
    ensures LogInv(Init(dir, size, buf, token))
  {
    SR.InitInv(buf);
  }

  // The samples of the finished calls, joined.
  function Joined(calls: seq<Finish>): seq<int16>
  {
    if calls == [] then [] else Joined(calls[..|calls| - 1]) + calls[|calls| - 1].done
  }

  // A call never moves more than was asked for; a write moves the front of the caller's buffer; and a call that
  // moved less has used up its timeout, which was not endless.
  predicate Honest(dir: Direction, c: Finish)
  {
    && |c.done| <= c.req.wanted == |c.req.data|
    && (dir == Tx ==> c.done <= c.req.data)
    && (|c.done| < c.req.wanted ==> c.req.ticks != FOREVER && c.req.started + c.req.ticks <= c.ended)
  }

  // The finished calls account for what was returned.
  ghost predicate CallsLog(s: State)
  {
    && s.returned == Joined(s.calls) && (forall c :: c in s.calls ==> Honest(s.dir, c))
    && (!s.call.Idle? ==> s.call.req.started <= s.now)
  }

  // The blocks received hold what the hardware gave.
  ghost predicate BlocksLog(s: State)
  {
    s.dir == Rx ==>
      && (s.isr.Running? || s.isr.Ended? ==> s.isr.block == Padded(s.isr.fifo, s.size))
      && forall b :: b in s.blocks ==> b.samples == Padded(b.fifo, s.size)
  }

  ghost predicate LogInv(s: State)
  {
    CallsLog(s) && BlocksLog(s)
  }

  lemma ElapsedAtMost(s: State)
    requires !s.call.Idle? && s.call.req.started <= s.now
    ensures Elapsed(s, s.call.req) <= s.now - s.call.req.started
  {
  }

  lemma DoneFits(s: State)
    requires Inv(s) && !s.call.Idle?
    ensures |s.call.done| <= s.call.req.wanted == |s.call.req.data|
    ensures s.dir == Tx ==> s.call.done <= s.call.req.data
  {
  }

  // A call returns.
  lemma CallsGrow(calls: seq<Finish>, c: Finish, dir: Direction)
    requires Honest(dir, c) && forall d :: d in calls ==> Honest(dir, d)
    ensures Joined(calls + [c]) == Joined(calls) + c.done
    ensures forall d :: d in calls + [c] ==> Honest(dir, d)
  {
    assert (calls + [c])[..|calls|] == calls;
  }

  lemma CheckLog(s: State)
    requires Inv(s) && CallsLog(s) && Enabled(s, Check)
    ensures CallsLog(Step(s, Check))
  {
    hide Inv, Elapsed, Joined;
    var t := Step(s, Check);
    ElapsedAtMost(s);
    DoneFits(s);
    if t.call.Idle? {
      CallsGrow(s.calls, Finish(s.call.req, s.call.done, s.now), s.dir);
    }
  }

  lemma CallsLogStep(s: State, a: Action)
    requires CallsLog(s) && Enabled(s, a) && !a.Check?
    ensures CallsLog(Step(s, a))
  {
    hide Honest;
  }

  lemma BlocksLogStep(s: State, a: Action)
    requires BlocksLog(s) && Enabled(s, a)
    ensures BlocksLog(Step(s, a))
  {
    hide Padded;
    var t := Step(s, a);
    if a.IsrFinish? {
      assert forall b :: b in t.blocks ==> b in s.blocks || b == Block(s.isr.block, s.isr.fifo, s.isr.moved);
    }
  }

  lemma LogStep(s: State, a: Action)
    requires Inv(s) && LogInv(s) && Enabled(s, a)
    ensures LogInv(Step(s, a))
  {
    hide Inv, CallsLog, BlocksLog, Step, Enabled;
    BlocksLogStep(s, a);
    if a.Check? {
      CheckLog(s);
    } else {
      CallsLogStep(s, a);
    }
  }

  lemma {:induction false} RunLog(s: State, actions: seq<Action>)
    requires Inv(s) && LogInv(s) && CanRun(s, actions)
    ensures Inv(Run(s, actions)) && LogInv(Run(s, actions))
    decreases |actions|
  {
    hide Inv, LogInv, Enabled, Step;
    if actions != [] {
      StepInv(s, actions[0]);
      LogStep(s, actions[0]);
      RunLog(Step(s, actions[0]), actions[1..]);
    }
  }

  /** End to end, task to DMA: in every run the samples played from the blocks of the TX handler, joined, are a
      prefix of the accepted parts of the writes since the last start, each of which is the front of what its caller
      passed; each block is such samples followed by silence only, and the underrun counter is the number of
      blocks that needed silence. */
  lemma PlayedIsPrefixOfWritten(size: nat, buf: seq<int16>, token: bool, actions: seq<Action>)
    requires 0 < size <= MAX_BLOCK && |buf| == RING_BLOCKS * size
    requires CanRun(Init(Tx, size, buf, token), actions)
    ensures var s := Run(Init(Tx, size, buf, token), actions);
      && (forall b :: b in s.blocks ==>
            |b.samples| == size && b.moved <= size && forall i :: b.moved <= i < size ==> b.samples[i] == 0)
      && (forall c :: c in s.calls ==> c.done <= c.req.data)
      && (!s.call.Idle? ==> InCall(s) <= s.call.req.data)
      && Payload(s.blocks) <= Joined(s.calls) + InCall(s)
      && s.frames == Wrap32(|s.blocks|) && s.shorts == Wrap32(ShortBlocks(s.blocks, size))
  {
    hide Run;
    InitInv(Tx, size, buf, token);
    RunLog(Init(Tx, size, buf, token), actions);
    RunFixed(Init(Tx, size, buf, token), actions);
    var s := Run(Init(Tx, size, buf, token), actions);
    SR.GotIsPrefix(s.ring);
    assert Payload(s.blocks) <= s.ring.got <= s.ring.wrote == s.returned + InCall(s);
  }

  /** End to end, DMA to task: what the reads since the last start have returned is a prefix of the samples the RX
      handler has put into the ring, from blocks that hold what the hardware FIFO gave followed by silence only; and
      the overrun counter is the number of blocks it had to cut. */
  lemma ReadIsPrefixOfReceived(size: nat, buf: seq<int16>, token: bool, actions: seq<Action>)
    requires 0 < size <= MAX_BLOCK && |buf| == RING_BLOCKS * size
    requires CanRun(Init(Rx, size, buf, token), actions)
    ensures var s := Run(Init(Rx, size, buf, token), actions);
      && (forall b :: b in s.blocks ==> |b.samples| == size && b.moved <= size && b.samples == Padded(b.fifo, size))
      && Joined(s.calls) + InCall(s) <= Payload(s.blocks) + InIsr(s)
      && s.frames == Wrap32(|s.blocks|) && s.shorts == Wrap32(ShortBlocks(s.blocks, size))
  {
    hide Run;
    InitInv(Rx, size, buf, token);
    RunLog(Init(Rx, size, buf, token), actions);
    RunFixed(Init(Rx, size, buf, token), actions);
    SR.GotIsPrefix(Run(Init(Rx, size, buf, token), actions).ring);
  }

  /** In every run, every finished call since the last start returned at most what was asked for, and fewer only
      when its timeout, which was not endless, was used up. */
  lemma ShortOnlyAfterTimeout(dir: Direction, size: nat, buf: seq<int16>, token: bool, actions: seq<Action>)
    requires 0 < size <= MAX_BLOCK && |buf| == RING_BLOCKS * size
    requires CanRun(Init(dir, size, buf, token), actions)
    ensures forall c :: c in Run(Init(dir, size, buf, token), actions).calls ==>
      && |c.done| <= c.req.wanted
      && (|c.done| < c.req.wanted ==> c.req.ticks != FOREVER && c.req.started + c.req.ticks <= c.ended)
  {
    hide Run;
    InitInv(dir, size, buf, token);
    RunLog(Init(dir, size, buf, token), actions);
  }

  lemma {:induction false} RunFixed(s: State, actions: seq<Action>)
    requires CanRun(s, actions)
    ensures Run(s, actions).dir == s.dir && Run(s, actions).size == s.size
    decreases |actions|
  {
    if actions != [] {
      RunFixed(Step(s, actions[0]), actions[1..]);
    }
  }

  // A call with a finite timeout has not lasted a whole turn of the 32-bit tick counter.
  predicate Timely(s: State)
  {
    !s.call.Idle? && s.call.req.ticks != FOREVER ==> s.now - s.call.req.started < U32
  }

  // How much the ring operation in progress will have moved.
  function Limit(s: State): nat
  {
    if s.dir == Tx && s.ring.writer.Storing? then s.ring.writer.limit
    else if s.dir == Rx && s.ring.reader.Fetching? then s.ring.reader.limit
    else 0
  }

  function IsrLimit(s: State): nat
  {
    if s.dir == Rx && s.ring.writer.Storing? then s.ring.writer.limit
    else if s.dir == Tx && s.ring.reader.Fetching? then s.ring.reader.limit
    else 0
  }

  // Rounds without a gain that can still be explained: one at the start, one for a stale wake-up.
  function Excuse(t: Tally): nat { t.stale + if t.gains == 0 then 1 else 0 }

  // The handler leaves the task something to move, and a second stale wake-up cannot come.
  ghost predicate TokenInv(s: State)
  {
    && (s.isr.Running? ==> IsrLimit(s) == Min(s.size, |s.ring.buf| - Pool(s)))
    && (s.isr.Ended? ==> Pool(s) > 0)
    && (!s.call.Idle? ==>
          && s.tally.stale <= 1
          && (s.tally.stale == 1 && s.token && Limit(s) == 0 ==> Pool(s) > 0)
          && (Hungry(s) ==> s.token || s.isr.Ended?))
  }

  // The call could go on: since its last snapshot the handler has left it something to move.
  predicate Hungry(s: State)
  {
    match s.call
    case Moving(req, done) => Limit(s) < req.wanted - |done| && Limit(s) < Pool(s)
    case Checking(req, done) => |done| < req.wanted && 0 < Pool(s)
    case Blocked(req, done, _) => 0 < Pool(s)
    case _ => false
  }

  ghost predicate RoundInv(s: State)
  {
    !s.call.Idle? && Timely(s) ==>
      var t, req := s.tally, s.call.req;
      && req.started <= s.now && t.gains <= |s.call.done|
      && t.rounds - t.idle <= 2 * t.gains + (if t.gains > 0 then 1 else 0)
      && (t.expired ==> req.ticks != FOREVER && req.started + req.ticks <= s.now)
      && match s.call
         case Trying(_, _) => t.idle <= Excuse(t) && (Pool(s) > 0 || t.idle < Excuse(t) || t.expired)
         case Moving(_, _) => t.idle <= Excuse(t) && (Limit(s) > 0 || t.idle < Excuse(t) || t.expired)
         case Checking(_, _) => t.idle <= Excuse(t) + if t.expired then 1 else 0
         case Blocked(_, _, until) =>
           t.idle <= Excuse(t) && !t.expired && (req.ticks != FOREVER ==> until == req.started + req.ticks)
  }

  ghost predicate TallyInv(s: State)
  {
    TokenInv(s) && RoundInv(s)
  }

  // The ring operations of both sides, seen in counts.
  lemma BeginMoveCounts(s: State)
    requires Inv(s) && Enabled(s, BeginMove)
    ensures Pool(Step(s, BeginMove)) == Pool(s)
    ensures Limit(Step(s, BeginMove)) == Min(s.call.req.wanted - |s.call.done|, Pool(s))
  {
    SR.BeginLimit(s.ring, BeginOf(s));
  }

  lemma EndMoveCounts(s: State)
    requires Inv(s) && Enabled(s, EndMove)
    ensures Pool(Step(s, EndMove)) == Pool(s) - Limit(s) && |Moved(s)| == Limit(s)
  {
    if s.dir == Tx { SR.EndWriteExact(s.ring); } else { SR.EndReadExact(s.ring); }
  }

  lemma IsrBeginCounts(s: State, fifo: seq<int16>)
    requires Inv(s) && Enabled(s, IsrBegin(fifo))
    ensures Pool(Step(s, IsrBegin(fifo))) == Pool(s)
    ensures IsrLimit(Step(s, IsrBegin(fifo))) == Min(s.size, |s.ring.buf| - Pool(s))
  {
    SR.BeginLimit(s.ring, IsrBeginOf(s, fifo));
  }

  lemma IsrEndCounts(s: State)
    requires Inv(s) && Enabled(s, IsrEnd)
    ensures Pool(Step(s, IsrEnd)) == Pool(s) + IsrLimit(s)
  {
    if s.dir == Tx { SR.EndReadExact(s.ring); } else { SR.EndWriteExact(s.ring); }
  }

  lemma ElapsedExact(s: State)
    requires !s.call.Idle? && s.call.req.ticks != FOREVER && Timely(s) && s.call.req.started <= s.now
    ensures Elapsed(s, s.call.req) == s.now - s.call.req.started
  {
  }

  lemma TaskToken(s: State, a: Action)
    requires Inv(s) && TokenInv(s) && Enabled(s, a) && (a.BeginMove? || a.EndMove?)
    ensures TokenInv(Step(s, a))
  {
    if a.BeginMove? { BeginMoveCounts(s); } else { EndMoveCounts(s); }
  }

  lemma IsrToken(s: State, a: Action)
    requires Inv(s) && TokenInv(s) && Enabled(s, a) && (a.IsrBegin? || a.IsrEnd?)
    ensures TokenInv(Step(s, a))
  {
    if a.IsrBegin? { IsrBeginCounts(s, a.fifo); } else { IsrEndCounts(s); }
  }

  lemma CallToken(s: State, a: Action)
    requires Inv(s) && TokenInv(s) && Enabled(s, a) && (a.Enter? || a.Check? || a.Wake? || a.TimeOut?)
    ensures TokenInv(Step(s, a))
  {
    hide SR.Inv;
  }

  lemma MoveToken(s: State)
    requires Inv(s) && TokenInv(s) && Enabled(s, MoveSample)
    ensures TokenInv(Step(s, MoveSample))
  {
    hide SR.Inv, IsrHistory, CallHistory;
  }

  lemma IsrMoveToken(s: State)
    requires Inv(s) && TokenInv(s) && Enabled(s, IsrMove)
    ensures TokenInv(Step(s, IsrMove))
  {
    hide SR.Inv, IsrHistory, CallHistory;
  }

  lemma StartToken(s: State)
    requires Inv(s) && TokenInv(s) && Enabled(s, Start)
    ensures TokenInv(Step(s, Start))
  {
    hide SR.Inv, IsrHistory, CallHistory;
  }

  lemma TokenStep(s: State, a: Action)
    requires Inv(s) && TokenInv(s) && Enabled(s, a)
    ensures TokenInv(Step(s, a))
  {
    hide Inv;
    match a
    case BeginMove => TaskToken(s, a);
    case EndMove => TaskToken(s, a);
    case IsrBegin(_) => IsrToken(s, a);
    case IsrEnd => IsrToken(s, a);
    case Start => StartToken(s);
    case MoveSample => MoveToken(s);
    case IsrMove => IsrMoveToken(s);
    case Stop =>
    case Tick =>
    case IsrFinish =>
    case _ => CallToken(s, a);
  }

  lemma TaskRound(s: State, a: Action)
    requires Inv(s) && TallyInv(s) && Enabled(s, a) && (a.BeginMove? || a.EndMove?)
    ensures RoundInv(Step(s, a))
  {
    if a.BeginMove? { BeginMoveCounts(s); } else { EndMoveCounts(s); }
  }

  lemma WaitRound(s: State, a: Action)
    requires Inv(s) && TallyInv(s) && Enabled(s, a)
    requires a.Enter? || a.Check? || a.Wake? || a.TimeOut? || a.Tick?
    ensures RoundInv(Step(s, a))
  {
    hide SR.Inv, IsrHistory, CallHistory, IsrShape, TokenInv;
    if a.Check? && s.call.req.ticks != FOREVER && Timely(s) {
      ElapsedExact(s);
    }
  }

  lemma OtherRound(s: State, a: Action)
    requires Inv(s) && TallyInv(s) && Enabled(s, a)
    requires a.Start? || a.Stop? || a.MoveSample? || a.IsrMove? || a.IsrFinish?
    ensures RoundInv(Step(s, a))
  {
    hide SR.Inv, IsrHistory, CallHistory, IsrShape;
  }

  lemma IsrRound(s: State, a: Action)
    requires Inv(s) && TallyInv(s) && Enabled(s, a) && (a.IsrBegin? || a.IsrEnd?)
    ensures RoundInv(Step(s, a))
  {
    if a.IsrBegin? { IsrBeginCounts(s, a.fifo); } else { IsrEndCounts(s); }
  }

  lemma TallyStep(s: State, a: Action)
    requires Inv(s) && TallyInv(s) && Enabled(s, a)
    ensures TallyInv(Step(s, a))
  {
    hide Inv, Step, Enabled, TokenInv, RoundInv;
    TokenStep(s, a);
    match a
    case BeginMove => TaskRound(s, a);
    case EndMove => TaskRound(s, a);
    case Enter(_, _, _) => WaitRound(s, a);
    case Check => WaitRound(s, a);
    case Wake => WaitRound(s, a);
    case TimeOut => WaitRound(s, a);
    case Tick => WaitRound(s, a);
    case IsrBegin(_) => IsrRound(s, a);
    case IsrEnd => IsrRound(s, a);
    case _ => OtherRound(s, a);
  }

  lemma {:induction false} RunTally(s: State, actions: seq<Action>)
    requires Inv(s) && TallyInv(s) && CanRun(s, actions)
    ensures Inv(Run(s, actions)) && TallyInv(Run(s, actions))
    decreases |actions|
  {
    if actions != [] {
      StepInv(s, actions[0]);
      TallyStep(s, actions[0]);
      RunTally(Step(s, actions[0]), actions[1..]);
    }
  }

  // The rounds of the loop since the call was entered; `n` were made before these actions.
  function Rounds(n: nat, actions: seq<Action>): nat
    decreases |actions|
  {
    if actions == [] then n
    else Rounds(if actions[0].Enter? then 0 else if actions[0].EndMove? then n + 1 else n, actions[1..])
  }

  // The wake-ups that found nothing to move, since the call was entered and since its last round that moved samples.
  ghost function StaleWakes(s: State, n: nat, actions: seq<Action>): nat
    requires CanRun(s, actions)
    decreases |actions|
  {
    if actions == [] then n
    else
      var a := actions[0];
      StaleWakes(Step(s, a),
                 if a.Enter? || (a.EndMove? && Moved(s) != []) then 0 else if a.Wake? && Pool(s) <= 0 then n + 1 else n,
                 actions[1..])
  }

  // The tally of a call is kept right.
  lemma {:induction false} TallyCounts(s: State, actions: seq<Action>)
    requires CanRun(s, actions)
    ensures Run(s, actions).tally.rounds == Rounds(s.tally.rounds, actions)
    ensures Run(s, actions).tally.stale == StaleWakes(s, s.tally.stale, actions)
    decreases |actions|
  {
    if actions != [] {
      TallyCounts(Step(s, actions[0]), actions[1..]);
    }
  }

  /** The blocking loops end: however the handler interrupts, at most one wake-up between two rounds that move
      samples finds nothing to move, and a call that wants `wanted` samples makes at most `2 * wanted + 3`
      rounds. While it waits with a finite timeout, its wait ends when the timeout is used up. */
  lemma CallsEnd(dir: Direction, size: nat, buf: seq<int16>, token: bool, actions: seq<Action>)
    requires 0 < size <= MAX_BLOCK && |buf| == RING_BLOCKS * size
    requires CanRun(Init(dir, size, buf, token), actions)
    ensures var (start, s) := (Init(dir, size, buf, token), Run(Init(dir, size, buf, token), actions));
      !s.call.Idle? ==>
        && StaleWakes(start, 0, actions) <= 1
        && (Timely(s) ==>
              && Rounds(0, actions) <= 2 * |s.call.done| + 3 <= 2 * s.call.req.wanted + 3
              && (s.call.Blocked? && s.call.req.ticks != FOREVER ==>
                    s.call.until == s.call.req.started + s.call.req.ticks))
  {
    hide CanRun, Run;
    InitInv(dir, size, buf, token);
    RunTally(Init(dir, size, buf, token), actions);
    TallyCounts(Init(dir, size, buf, token), actions);
  }

  /** No wake-up is lost: when nothing runs and a blocked call could move a sample, its semaphore is given. */
  lemma NoLostWakeUp(dir: Direction, size: nat, buf: seq<int16>, token: bool, actions: seq<Action>)
    requires 0 < size <= MAX_BLOCK && |buf| == RING_BLOCKS * size
    requires CanRun(Init(dir, size, buf, token), actions)
    ensures var s := Run(Init(dir, size, buf, token), actions);
      s.call.Blocked? && s.isr.Off? && 0 < Pool(s) ==> s.token && Enabled(s, Wake)
  {
    InitInv(dir, size, buf, token);
    RunTally(Init(dir, size, buf, token), actions);
  }

  // What can happen next, apart from starting, stopping and the passing of time.
  predicate CanGoOn(s: State)
  {
    match s.isr
    case Running(_, _) => Enabled(s, IsrMove) || Enabled(s, IsrEnd)
    case Ended(_, _, _) => Enabled(s, IsrFinish)
    case Off =>
      && (s.on ==> Enabled(s, IsrBegin([])))
      && match s.call
         case Idle => Enabled(s, Start) || Enabled(s, Enter([0], 1, FOREVER))
         case Trying(_, _) => Enabled(s, BeginMove)
         case Moving(_, _) => Enabled(s, MoveSample) || Enabled(s, EndMove)
         case Checking(_, _) => Enabled(s, Check)
         case Blocked(req, _, until) =>
           && (s.token ==> Enabled(s, Wake))
           && (!s.token && req.ticks != FOREVER && until <= s.now ==> Enabled(s, TimeOut))
  }

  /** Nothing gets stuck: in every run the handler can go on while it runs, and otherwise may begin while the stream is
      on; and meanwhile a call can go on, unless it waits without a semaphore and its time has not come. */
  lemma NothingIsStuck(dir: Direction, size: nat, buf: seq<int16>, token: bool, actions: seq<Action>)
    requires 0 < size <= MAX_BLOCK && |buf| == RING_BLOCKS * size
    requires CanRun(Init(dir, size, buf, token), actions)
    ensures CanGoOn(Run(Init(dir, size, buf, token), actions))
  {
    hide CanRun, Run, CanGoOn;
    InitInv(dir, size, buf, token);
    RunInv(Init(dir, size, buf, token), actions);
    GoesOn(Run(Init(dir, size, buf, token), actions));
  }

  lemma GoesOn(s: State)
    requires Inv(s)
    ensures CanGoOn(s)
  {
    hide CallHistory, IsrHistory, TaskSide, IsrSide;
  }

  /** At its check a call returns exactly if it has moved everything, or its timeout is zero or used up; once a wait has
      timed out, the round that follows is the last. */
  lemma EarlyReturn(s: State)
    requires Inv(s) && TallyInv(s) && Timely(s) && Enabled(s, Check)
    ensures Step(s, Check).call.Idle? <==>
      || |s.call.done| == s.call.req.wanted || s.call.req.ticks == 0
      || (s.call.req.ticks != FOREVER && s.call.req.started + s.call.req.ticks <= s.now)
    ensures s.tally.expired ==> Step(s, Check).call.Idle?
  {
    if s.call.req.ticks != FOREVER {
      ElapsedExact(s);
    }
  }
}
