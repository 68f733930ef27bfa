/**
 What the frame buffer of `audio_buffers.c` is for: a bounded first-in first-out queue of frames with
 statistics and watermark callbacks. FrameRing proves that the ring behaves like it.
 */
module FrameFifo {
  import opened Words

  datatype Meta = Meta(
    timestamp: uint32, sequence: uint16, length: uint16, channels: uint8, valid: bool, flags: uint8)

  datatype Frame = Frame(data: seq<uint8>, meta: Meta)

  datatype Config = Config(
    frameSize: uint16, depth: uint8, track: bool,
    highCallback: bool, lowCallback: bool, highThreshold: uint8, lowThreshold: uint8)

  datatype Stats = Stats(
    framesWritten: uint32, framesRead: uint32, bytesWritten: uint32, bytesRead: uint32,
    overruns: uint32, underruns: uint32, peakLevel: uint32, latency: uint32, latencyFrames: uint32)

  const NO_STATS := Stats(0, 0, 0, 0, 0, 0, 0, 0, 0)

  // The field current_timestamp, which nothing ever sets.
  const NOW: uint32 := 0

  const MAX_DEPTH := 32

  datatype Code = Ok | InvalidParam | InvalidSize | Full | Empty

  // A watermark callback and the level it reports.
  datatype Event = High(level: nat) | Low(level: nat)

  datatype Fifo = Fifo(
    config: Config, queue: seq<Frame>, writeSequence: uint16, stats: Stats, events: seq<Event>)

  datatype Op =
    | Write(data: seq<uint8>, meta: Option<Meta>)
    | Commit(memory: seq<uint8>, len: uint16, meta: Option<Meta>)
    | Read(maxLen: uint16)
    | CommitRead
    | Skip
    | DiscardBefore(timestamp: uint32)
    | Reset
    | ResetStats

  predicate Usable(c: Config) { 0 < c.frameSize && 0 < c.depth <= MAX_DEPTH }

  predicate Valid(f: Fifo) { Usable(f.config) && |f.queue| <= f.config.depth }

  function Create(config: Config): Fifo
  {
    Fifo(config, [], 0, NO_STATS, [])
  }

  // The metadata stored with a frame: the caller's, or default ones; the length is always the real one.
  function Stored(sequence: uint16, meta: Option<Meta>, len: uint16): Meta
  {
    match meta
    case Some(m) => m.(length := len)
    case None => Meta(NOW, sequence, len, 1, true, 0)
  }

  // The callbacks of check_thresholds: a watermark is reported when the level crosses it.
  function Crossings(c: Config, before: nat, after: nat): seq<Event>
  {
    (if c.highCallback && before < c.highThreshold <= after then [High(after)] else []) +
    (if c.lowCallback && before > c.lowThreshold >= after then [Low(after)] else [])
  }

  function Pushed(f: Fifo, data: seq<uint8>, meta: Option<Meta>): Fifo
    requires |data| < U16
  {
    f.(queue := f.queue + [Frame(data, Stored(f.writeSequence, meta, |data|))],
       writeSequence := Wrap16(f.writeSequence + 1),
       stats := f.stats.(framesWritten := Wrap32(f.stats.framesWritten + 1),
                         bytesWritten := Wrap32(f.stats.bytesWritten + |data|)))
  }

  // The part of a frame that a read with `maxLen` bytes of room returns.
  function Cut(x: Frame, maxLen: nat): seq<uint8>
  {
    x.data[..Min(|x.data|, maxLen)]
  }

  // The statistics after a read: latency of valid frames, frames and bytes.
  function ReadStats(s: Stats, c: Config, meta: Meta, bytes: nat): Stats
  {
    var timed := c.track && meta.valid;
    s.(framesRead := Wrap32(s.framesRead + 1), bytesRead := Wrap32(s.bytesRead + bytes),
       latency := if timed then Wrap32(s.latency + Wrap32(NOW - meta.timestamp)) else s.latency,
       latencyFrames := if timed then Wrap32(s.latencyFrames + 1) else s.latencyFrames)
  }

  // The frames in front that are older than `timestamp`.
  function Older(queue: seq<Frame>, timestamp: uint32): (n: nat)
    ensures n <= |queue|
  {
    if queue == [] || queue[0].meta.timestamp >= timestamp then 0 else 1 + Older(queue[1..], timestamp)
  }

  function Apply(f: Fifo, op: Op): (r: (Fifo, Code))
    requires Valid(f)
  {
    match op
    case Write(data, meta) =>
      if |data| == 0 then (f, InvalidParam)
      else if |data| > f.config.frameSize then (f, InvalidSize)
      else if |f.queue| == f.config.depth then
        (f.(stats := f.stats.(overruns := Wrap32(f.stats.overruns + 1))), Full)
      else
        var g, level := Pushed(f, data, meta), |f.queue| + 1;
        (g.(stats := g.stats.(peakLevel := if level > g.stats.peakLevel then level else g.stats.peakLevel),
            events := g.events + Crossings(f.config, |f.queue|, level)), Ok)
    case Commit(memory, len, meta) =>
      if len == 0 || len > f.config.frameSize then (f, InvalidSize)
      else if |f.queue| == f.config.depth then (f, Full)
      else (Pushed(f, memory[..Min(len, |memory|)], meta), Ok)
    case Read(maxLen) =>
      if f.queue == [] then (f.(stats := f.stats.(underruns := Wrap32(f.stats.underruns + 1))), Empty)
      else
        (f.(queue := f.queue[1..], stats := ReadStats(f.stats, f.config, f.queue[0].meta, |Cut(f.queue[0], maxLen)|),
            events := f.events + Crossings(f.config, |f.queue|, |f.queue| - 1)), Ok)
    case CommitRead =>
      if f.queue == [] then (f, Empty)
      else
        (f.(queue := f.queue[1..],
            stats := f.stats.(framesRead := Wrap32(f.stats.framesRead + 1),
                              bytesRead := Wrap32(f.stats.bytesRead + f.queue[0].meta.length))), Ok)
    case Skip =>
      if f.queue == [] then (f, Empty) else (f.(queue := f.queue[1..]), Ok)
    case DiscardBefore(timestamp) => (f.(queue := f.queue[Older(f.queue, timestamp)..]), Ok)
    case Reset => (f.(queue := [], writeSequence := 0), Ok)
    case ResetStats => (f.(stats := NO_STATS), Ok)
  }

  // The bound on the level holds after every operation.
  lemma ApplyValid(f: Fifo, op: Op)
    requires Valid(f)
    ensures Valid(Apply(f, op).0) && Apply(f, op).0.config == f.config
  {
  }

  // The metadata that a frame is queued with: the caller's, but with its real length; without them, the time zero,
  // the buffer's number, one channel, valid and no flags.
  ghost predicate Labelled(x: Frame, sequence: uint16, meta: Option<Meta>)
  {
    && x.meta.length == |x.data|
    && match meta
       case Some(m) =>
         && x.meta.timestamp == m.timestamp && x.meta.sequence == m.sequence && x.meta.channels == m.channels
         && x.meta.valid == m.valid && x.meta.flags == m.flags
       case None =>
         && x.meta.timestamp == 0 && x.meta.sequence == sequence && x.meta.channels == 1
         && x.meta.valid && x.meta.flags == 0
  }

  /** What the answer to a write or a commit means: Ok exactly if the queue grew, by exactly this frame at its end,
      and the number for the next one moved on; Full exactly if a frame of a valid size met `depth` queued frames;
      any other answer tells a wrong size. A frame that is not accepted changes nothing but the overruns, which
      count full writes. */
  lemma WriteCodes(f: Fifo, op: Op)
    requires Valid(f) && (op.Write? || op.Commit?)
    ensures var (g, code) := Apply(f, op);
      var data := if op.Write? then op.data else op.memory[..Min(op.len, |op.memory|)];
      var size := if op.Write? then |op.data| else op.len as int;
      && (code == Ok <==> |g.queue| > |f.queue|)
      && (code == Ok ==>
            && |g.queue| == |f.queue| + 1 && g.queue[..|f.queue|] == f.queue
            && g.queue[|f.queue|].data == data && Labelled(g.queue[|f.queue|], f.writeSequence, op.meta)
            && g.writeSequence == (f.writeSequence + 1) % 0x1_0000)
      && (code == Full <==> 0 < size <= f.config.frameSize && |f.queue| == f.config.depth)
      && (code == InvalidParam <==> op.Write? && size == 0)
      && (code == InvalidSize <==> size > f.config.frameSize || (op.Commit? && size == 0))
      && code != Empty
      && (code != Ok ==>
            && g.queue == f.queue && g.writeSequence == f.writeSequence && g.events == f.events
            && g.stats.overruns ==
                 (if op.Write? && code == Full then (f.stats.overruns + 1) % U32 else f.stats.overruns)
            && g.stats.(overruns := 0) == f.stats.(overruns := 0))
  {
  }

  /** What the answer to a read, a committed read or a skip means: Ok exactly if a frame was queued, and then the oldest
      one is gone; otherwise Empty, and nothing changes but the underruns, which count empty reads. */
  lemma ReadCodes(f: Fifo, op: Op)
    requires Valid(f) && (op.Read? || op.CommitRead? || op.Skip?)
    ensures var (g, code) := Apply(f, op);
      && code == (if f.queue == [] then Empty else Ok)
      && (code == Ok ==> f.queue == [f.queue[0]] + g.queue)
      && g.writeSequence == f.writeSequence
      && (code == Empty ==>
            && g.queue == [] && g.events == f.events
            && g.stats.underruns == (if op.Read? then (f.stats.underruns + 1) % U32 else f.stats.underruns)
            && g.stats.(underruns := 0) == f.stats.(underruns := 0))
  {
  }

  /** Resetting empties the queue and restarts the numbers, but not the statistics; resetting the statistics makes them
      all zero and keeps the queue. */
  lemma ResetsApart(f: Fifo)
    requires Valid(f)
    ensures var (g, code) := Apply(f, Reset);
      code == Ok && g.queue == [] && g.writeSequence == 0 && g.stats == f.stats && g.events == f.events
    ensures var (g, code) := Apply(f, ResetStats);
      && code == Ok && g.queue == f.queue && g.writeSequence == f.writeSequence && g.events == f.events
      && g.stats.framesWritten == g.stats.framesRead == g.stats.bytesWritten == g.stats.bytesRead == 0
      && g.stats.overruns == g.stats.underruns == g.stats.peakLevel == g.stats.latency == g.stats.latencyFrames == 0
  {
  }

  // The bytes of some frames.
  function Total(queue: seq<Frame>): nat
  {
    if queue == [] then 0 else Total(queue[..|queue| - 1]) + |queue[|queue| - 1].data|
  }

  // The metadata of a queued frame tell its length.
  ghost predicate Measured(queue: seq<Frame>) { forall x :: x in queue ==> x.meta.length == |x.data| }

  /** A buffer with its past since the last reset of the statistics: the frames accepted since then, the frames
      that were queued at that time, the frames taken out since then, how many of those were never read, and how
      many of their bytes no read returned. */
  datatype Past = Past(
    fifo: Fifo, accepted: seq<Frame>, carried: seq<Frame>, removed: seq<Frame>, lost: nat, missed: nat)

  function Begin(config: Config): Past
  {
    Past(Create(config), [], [], [], 0, 0)
  }

  // The bytes of removed frames that the operation did not return.
  function Missed(op: Op, gone: seq<Frame>): nat
  {
    match op
    case Read(maxLen) => if gone == [] then 0 else |gone[0].data| - |Cut(gone[0], maxLen)|
    case CommitRead => 0
    case _ => Total(gone)
  }

  function Next(p: Past, op: Op): Past
    requires Valid(p.fifo)
  {
    var f, g := p.fifo, Apply(p.fifo, op).0;
    if op.ResetStats? then Past(g, [], g.queue, [], 0, 0)
    else if |g.queue| > |f.queue| then p.(fifo := g, accepted := p.accepted + [g.queue[|f.queue|]])
    else
      var gone := f.queue[..|f.queue| - |g.queue|];
      Past(g, p.accepted, p.carried, p.removed + gone,
           p.lost + (if op.Read? || op.CommitRead? then 0 else |gone|), p.missed + Missed(op, gone))
  }

  lemma NextValid(p: Past, op: Op)
    requires Valid(p.fifo)
    ensures Valid(Next(p, op).fifo) && Next(p, op).fifo.config == p.fifo.config
  {
    hide Valid, Apply;
    ApplyValid(p.fifo, op);
  }

  // A run of a new buffer.
  ghost function Run(config: Config, ops: seq<Op>): (p: Past)
    requires Usable(config)
    ensures Valid(p.fifo) && p.fifo.config == config
    decreases |ops|
  {
    if ops == [] then Begin(config)
    else
      var before := Run(config, ops[..|ops| - 1]);
      NextValid(before, ops[|ops| - 1]);
      Next(before, ops[|ops| - 1])
  }

  // First in, first out; and every frame is accounted for.
  ghost predicate Balanced(p: Past)
  {
    && Valid(p.fifo)
    && p.carried + p.accepted == p.removed + p.fifo.queue
    && p.lost <= |p.removed|
    && p.fifo.stats.framesWritten == Wrap32(|p.accepted|)
    && p.fifo.stats.framesRead == Wrap32(|p.removed| - p.lost)
    && p.fifo.stats.peakLevel <= p.fifo.config.depth
  }

  // And so is every byte.
  ghost predicate BytesBalanced(p: Past)
  {
    && Measured(p.fifo.queue)
    && p.missed <= Total(p.removed)
    && p.fifo.stats.bytesWritten == Wrap32(Total(p.accepted))
    && p.fifo.stats.bytesRead == Wrap32(Total(p.removed) - p.missed)
  }

  // An operation appends one frame, or takes frames from the front.
  ghost predicate QueueShape(before: seq<Frame>, after: seq<Frame>)
  {
    if |after| > |before| then |after| == |before| + 1 && after[..|before|] == before
    else after == before[|before| - |after|..]
  }

  lemma PushShape(f: Fifo, op: Op)
    requires Valid(f) && (op.Write? || op.Commit?)
    ensures QueueShape(f.queue, Apply(f, op).0.queue)
  {
  }

  lemma PopShape(f: Fifo, op: Op)
    requires Valid(f) && !op.Write? && !op.Commit?
    ensures QueueShape(f.queue, Apply(f, op).0.queue)
  {
    hide Older;
    var n := if op.DiscardBefore? then Older(f.queue, op.timestamp) else if op.Reset? then |f.queue|
             else if op.ResetStats? || f.queue == [] then 0 else 1;
    DropShape(f.queue, n);
    assert Apply(f, op).0.queue == f.queue[n..];
  }

  lemma DropShape(queue: seq<Frame>, n: nat)
    requires n <= |queue|
    ensures QueueShape(queue, queue[n..])
  {
  }

  lemma Requeue<T>(a: seq<T>, b: seq<T>, c: seq<T>, d: seq<T>, x: seq<T>)
    requires a + b == c + d
    ensures a + (b + x) == c + (d + x)
  {
    assert a + (b + x) == (a + b) + x;
    assert c + (d + x) == (c + d) + x;
  }

  lemma Dequeue<T>(c: seq<T>, d: seq<T>, n: nat)
    requires n <= |d|
    ensures (c + d[..n]) + d[n..] == c + d
  {
  }

  lemma ResetKeeps(f: Fifo, op: Op)
    requires Valid(f)
    ensures op.ResetStats? ==> Apply(f, op).0.queue == f.queue
  {
  }

  lemma NextQueue(p: Past, op: Op)
    requires Balanced(p)
    ensures Valid(Next(p, op).fifo)
    ensures var q := Next(p, op); q.carried + q.accepted == q.removed + q.fifo.queue && q.lost <= |q.removed|
  {
    hide Apply;
    ApplyValid(p.fifo, op);
    if op.Write? || op.Commit? { PushShape(p.fifo, op); } else { PopShape(p.fifo, op); }
    ResetKeeps(p.fifo, op);
    var before, after := p.fifo.queue, Apply(p.fifo, op).0.queue;
    if op.ResetStats? {
      assert after + [] == [] + after;
    } else if |after| > |before| {
      assert after == before + [after[|before|]];
      Requeue(p.carried, p.accepted, p.removed, before, [after[|before|]]);
    } else {
      Dequeue(p.removed, before, |before| - |after|);
    }
  }

  lemma NextStats(p: Past, op: Op)
    requires Balanced(p)
    ensures var q := Next(p, op);
      && q.fifo.stats.framesWritten == Wrap32(|q.accepted|)
      && q.fifo.stats.framesRead == Wrap32(|q.removed| - q.lost)
      && q.fifo.stats.peakLevel <= q.fifo.config.depth
  {
    hide Wrap32, Older, Crossings, Cut;
    WrapZero();
    WrapStep(|p.accepted|, 1);
    WrapStep(|p.removed| - p.lost, 1);
  }

  lemma WrapZero()
    ensures Wrap32(0) == 0
  {
  }

  lemma {:induction false} TotalJoin(a: seq<Frame>, b: seq<Frame>)
    ensures Total(a + b) == Total(a) + Total(b)
    decreases |b|
  {
    if b == [] {
      assert a + b == a;
    } else {
      var n := |b| - 1;
      TotalJoin(a, b[..n]);
      assert (a + b)[..|a| + n] == a + b[..n];
    }
  }

  lemma TotalOne(x: Frame)
    ensures Total([x]) == |x.data|
  {
    assert Total([x]) == Total([]) + |x.data|;
  }

  lemma PushBytes(p: Past, op: Op)
    requires Balanced(p) && BytesBalanced(p) && (op.Write? || op.Commit?)
    ensures BytesBalanced(Next(p, op))
  {
    hide Total;
    var before, after := p.fifo.queue, Apply(p.fifo, op).0.queue;
    if |after| > |before| {
      var x := after[|before|];
      TotalJoin(p.accepted, [x]);
      TotalOne(x);
      WrapStep(Total(p.accepted), |x.data|);
    } else {
      NoneGone(p, op);
    }
  }

  lemma NoneGone(p: Past, op: Op)
    ensures Missed(op, p.fifo.queue[..0]) == 0 && p.removed + p.fifo.queue[..0] == p.removed
  {
  }

  // Bytes of removed frames are read or missed.
  lemma GoneBytes(removed: seq<Frame>, gone: seq<Frame>, missed: nat, read: uint32, op: Op, now: uint32)
    requires missed <= Total(removed) && read == Wrap32(Total(removed) - missed)
    requires Missed(op, gone) <= Total(gone) && now == Wrap32(read + Total(gone) - Missed(op, gone))
    ensures missed + Missed(op, gone) <= Total(removed + gone)
    ensures now == Wrap32(Total(removed + gone) - missed - Missed(op, gone))
  {
    hide Total, Missed;
    TotalJoin(removed, gone);
    WrapStep(Total(removed) - missed, Total(gone) - Missed(op, gone));
  }

  lemma MeasuredFront(queue: seq<Frame>, n: nat)
    requires Measured(queue) && n <= |queue|
    ensures Measured(queue[n..])
    ensures n < |queue| ==> Total(queue[..0]) == 0 && Total(queue[..1]) == |queue[0].data| == queue[0].meta.length
    ensures queue[..|queue| - |queue[n..]|] == queue[..n]
  {
    if n < |queue| {
      assert queue[..1] == [queue[0]];
      TotalOne(queue[0]);
    }
  }

  // What one operation counts as read.
  ghost predicate CountsRead(f: Fifo, g: Fifo, op: Op, n: nat)
  {
    && n <= |f.queue| && g.queue == f.queue[n..] && g.stats.bytesWritten == f.stats.bytesWritten
    && Missed(op, f.queue[..n]) <= Total(f.queue[..n])
    && g.stats.bytesRead == Wrap32(f.stats.bytesRead + Total(f.queue[..n]) - Missed(op, f.queue[..n]))
  }

  lemma ReadCounts(f: Fifo, op: Op)
    requires Valid(f) && Measured(f.queue) && (op.Read? || op.CommitRead?)
    ensures CountsRead(f, Apply(f, op).0, op, if f.queue == [] then 0 else 1)
  {
    hide Total, Measured;
    MeasuredFront(f.queue, 0);
    TotalNone(f.queue);
  }

  lemma DropCounts(f: Fifo, op: Op)
    requires Valid(f) && (op.Skip? || op.DiscardBefore? || op.Reset?)
    ensures var n := |f.queue| - |Apply(f, op).0.queue|; n >= 0 && CountsRead(f, Apply(f, op).0, op, n)
  {
    hide CountsRead, Older, Total, Wrap32;
    match op
    case Skip => DropN(f, op, if f.queue == [] then 0 else 1);
    case DiscardBefore(timestamp) => DropN(f, op, Older(f.queue, timestamp));
    case Reset => DropN(f, op, |f.queue|);
  }

  // Frames that are dropped are not read.
  lemma DropN(f: Fifo, op: Op, n: nat)
    requires Valid(f) && (op.Skip? || op.DiscardBefore? || op.Reset?)
    requires n <= |f.queue| && Apply(f, op).0.queue == f.queue[n..]
    ensures CountsRead(f, Apply(f, op).0, op, n)
  {
    hide Older, Total, Wrap32;
    TotalNone(f.queue);
    WrapSame(f.stats.bytesRead, Total(f.queue[..n]));
  }

  lemma WrapSame(x: uint32, t: nat)
    ensures Wrap32(x + t - t) == x
  {
  }

  lemma ReadBytes(f: Fifo, op: Op)
    requires Valid(f) && Measured(f.queue) && !op.Write? && !op.Commit? && !op.ResetStats?
    ensures var g := Apply(f, op).0;
      && |g.queue| <= |f.queue| && Measured(g.queue) && g.stats.bytesWritten == f.stats.bytesWritten
      && var gone := f.queue[..|f.queue| - |g.queue|];
         && Missed(op, gone) <= Total(gone)
         && g.stats.bytesRead == Wrap32(f.stats.bytesRead + Total(gone) - Missed(op, gone))
  {
    hide Apply, Total, Missed, Measured;
    if op.Read? || op.CommitRead? {
      ReadCounts(f, op);
    } else {
      DropCounts(f, op);
    }
    MeasuredFront(f.queue, |f.queue| - |Apply(f, op).0.queue|);
  }

  lemma TotalNone(queue: seq<Frame>)
    ensures Total(queue[..0]) == 0
  {
  }

  lemma PopBytes(p: Past, op: Op)
    requires Balanced(p) && BytesBalanced(p) && !op.Write? && !op.Commit? && !op.ResetStats?
    ensures BytesBalanced(Next(p, op))
  {
    hide Apply, Total, Missed;
    ReadBytes(p.fifo, op);
    var f, g := p.fifo, Apply(p.fifo, op).0;
    GoneBytes(p.removed, f.queue[..|f.queue| - |g.queue|], p.missed, f.stats.bytesRead, op, g.stats.bytesRead);
  }

  lemma NextBytes(p: Past, op: Op)
    requires Balanced(p) && BytesBalanced(p)
    ensures BytesBalanced(Next(p, op))
  {
    if op.Write? || op.Commit? {
      PushBytes(p, op);
    } else if !op.ResetStats? {
      PopBytes(p, op);
    }
  }

  lemma {:induction false} RunBalanced(config: Config, ops: seq<Op>)
    requires Usable(config)
    ensures Balanced(Run(config, ops)) && BytesBalanced(Run(config, ops))
    decreases |ops|
  {
    hide Apply, Next, Balanced, BytesBalanced;
    if ops == [] {
      Nothing(config);
    } else {
      var before, op := Run(config, ops[..|ops| - 1]), ops[|ops| - 1];
      RunBalanced(config, ops[..|ops| - 1]);
      NextBalanced(before, op);
      NextBytes(before, op);
    }
  }

  lemma NextBalanced(p: Past, op: Op)
    requires Balanced(p)
    ensures Balanced(Next(p, op))
  {
    hide Apply, Next;
    NextQueue(p, op);
    NextStats(p, op);
  }

  lemma Nothing(config: Config)
    requires Usable(config)
    ensures Balanced(Begin(config)) && BytesBalanced(Begin(config))
  {
  }

  /** Conservation over every run: with the frames carried over from before the last reset of the statistics,
      frames written are frames read, plus frames queued, plus frames skipped, discarded or reset, modulo 2^32;
      bytes written are bytes read, plus bytes queued, plus bytes of such frames and those that short reads cut
      off; and frames leave in the order in which they came. */
  lemma Conservation(config: Config, ops: seq<Op>)
    requires Usable(config)
    ensures var p := Run(config, ops); var f := p.fifo;
      && p.carried + p.accepted == p.removed + f.queue
      && Wrap32(f.stats.framesWritten + |p.carried|) == Wrap32(f.stats.framesRead + |f.queue| + p.lost)
      && Wrap32(f.stats.bytesWritten + Total(p.carried)) == Wrap32(f.stats.bytesRead + Total(f.queue) + p.missed)
      && |f.queue| <= config.depth && f.stats.peakLevel <= config.depth
  {
    hide Run, Total, Wrap32;
    RunBalanced(config, ops);
    var p := Run(config, ops);
    assert |p.carried + p.accepted| == |p.removed + p.fifo.queue|;
    SameWrapped(|p.accepted|, |p.carried|, |p.removed| - p.lost, |p.fifo.queue| + p.lost);
    TotalJoin(p.carried, p.accepted);
    TotalJoin(p.removed, p.fifo.queue);
    SameWrapped(Total(p.accepted), Total(p.carried), Total(p.removed) - p.missed, Total(p.fifo.queue) + p.missed);
  }

  lemma SameWrapped(a: int, b: int, c: int, d: int)
    requires a + b == c + d
    ensures Wrap32(Wrap32(a) + b) == Wrap32(Wrap32(c) + d)
  {
    WrapStep(a, b);
    WrapStep(c, d);
  }

  lemma RunStep(config: Config, ops: seq<Op>)
    requires Usable(config) && ops != []
    ensures var (before, op) := (Run(config, ops[..|ops| - 1]).fifo, ops[|ops| - 1]);
      Run(config, ops).fifo == Apply(before, op).0
  {
    hide Apply;
  }

  // How many operations since the last reset of the statistics were answered as `p` says.
  ghost function Answers(config: Config, ops: seq<Op>, p: (Op, Code) -> bool): nat
    requires Usable(config)
    decreases |ops|
  {
    if ops == [] || ops[|ops| - 1].ResetStats? then 0
    else
      var front, op := ops[..|ops| - 1], ops[|ops| - 1];
      Answers(config, front, p) + if p(op, Apply(Run(config, front).fifo, op).1) then 1 else 0
  }

  predicate Accepts(op: Op, code: Code) { (op.Write? || op.Commit?) && code == Ok }
  predicate Overruns(op: Op, code: Code) { op.Write? && code == Full }
  predicate Underruns(op: Op, code: Code) { op.Read? && code == Empty }

  lemma AnswerStep(p: Past, op: Op)
    requires Valid(p.fifo) && !op.ResetStats?
    ensures var (q, code) := (Next(p, op), Apply(p.fifo, op).1);
      && |q.accepted| == |p.accepted| + (if Accepts(op, code) then 1 else 0)
      && q.fifo.stats.overruns == Wrap32(p.fifo.stats.overruns + if Overruns(op, code) then 1 else 0)
      && q.fifo.stats.underruns == Wrap32(p.fifo.stats.underruns + if Underruns(op, code) then 1 else 0)
  {
    hide Wrap32, Older, Crossings, Cut;
    WrapSame(p.fifo.stats.overruns, 0);
    WrapSame(p.fifo.stats.underruns, 0);
  }

  /** The answers and the statistics agree, over every run: as many writes and commits were answered with Ok as frames
      were accepted; the overruns are the writes answered with Full, the underruns the reads answered with Empty, modulo
      2^32, all since the last reset of the statistics. */
  lemma {:induction false} AnswersAreCounted(config: Config, ops: seq<Op>)
    requires Usable(config)
    ensures var p := Run(config, ops);
      && |p.accepted| == Answers(config, ops, Accepts)
      && p.fifo.stats.overruns == Wrap32(Answers(config, ops, Overruns))
      && p.fifo.stats.underruns == Wrap32(Answers(config, ops, Underruns))
    decreases |ops|
  {
    hide Apply, Next, Accepts, Overruns, Underruns, Wrap32;
    WrapZero();
    if ops != [] {
      var front, op := ops[..|ops| - 1], ops[|ops| - 1];
      var p := Run(config, front);
      AnswersAreCounted(config, front);
      if op.ResetStats? {
        ResetCounts(p);
      } else {
        AnswerStep(p, op);
        WrapStep(Answers(config, front, Overruns), 0);
        WrapStep(Answers(config, front, Overruns), 1);
        WrapStep(Answers(config, front, Underruns), 0);
        WrapStep(Answers(config, front, Underruns), 1);
      }
    }
  }

  lemma ResetCounts(p: Past)
    requires Valid(p.fifo)
    ensures var q := Next(p, ResetStats); q.accepted == [] && q.fifo.stats == NO_STATS
  {
  }

  // The frames read since the last reset of the statistics whose latency was counted, newest last.
  ghost function Timed(config: Config, ops: seq<Op>): seq<Frame>
    requires Usable(config)
    decreases |ops|
  {
    if ops == [] || ops[|ops| - 1].ResetStats? then []
    else
      var front := ops[..|ops| - 1];
      var queue := Run(config, front).fifo.queue;
      Timed(config, front) +
      if ops[|ops| - 1].Read? && queue != [] && config.track && queue[0].meta.valid then [queue[0]] else []
  }

  function Times(fs: seq<Frame>): nat
  {
    if fs == [] then 0 else Times(fs[..|fs| - 1]) + fs[|fs| - 1].meta.timestamp
  }

  lemma LatencyStep(f: Fifo, op: Op)
    requires Valid(f) && !op.ResetStats?
    ensures var g := Apply(f, op).0;
      var timed := op.Read? && f.queue != [] && f.config.track && f.queue[0].meta.valid;
      && g.stats.latencyFrames == (if timed then Wrap32(f.stats.latencyFrames + 1) else f.stats.latencyFrames)
      && Wrap32(g.stats.latency + if timed then f.queue[0].meta.timestamp else 0) == f.stats.latency
  {
    hide Older, Crossings, Cut, Wrap32;
    WrapSame(f.stats.latency, 0);
    if op.Read? && f.queue != [] {
      Backwards(f.stats.latency, f.queue[0].meta.timestamp);
    }
  }

  lemma Backwards(latency: uint32, time: uint32)
    ensures Wrap32(Wrap32(latency + Wrap32(0 - time)) + time) == latency
  {
  }

  lemma WrapBack(latency: uint32, before: uint32, time: nat, times: nat)
    requires Wrap32(latency + time) == before && Wrap32(before + times) == 0
    ensures Wrap32(latency + (times + time)) == 0
  {
    WrapStep(latency + time, times);
    assert latency + time + times == latency + (times + time);
  }

  /** What the latency statistics come to: the number of frames read that were valid, if tracking is on, and minus the
      sum of their timestamps, modulo 2^32, for the buffer's own time stands still at zero. */
  lemma {:induction false} LatencyIsMinusTimes(config: Config, ops: seq<Op>)
    requires Usable(config)
    ensures var (stats, timed) := (Run(config, ops).fifo.stats, Timed(config, ops));
      stats.latencyFrames == Wrap32(|timed|) && Wrap32(stats.latency + Times(timed)) == 0
    decreases |ops|
  {
    hide Run, Apply, Wrap32;
    WrapZero();
    if ops == [] {
      NothingRun(config);
    } else {
      var front, op := ops[..|ops| - 1], ops[|ops| - 1];
      var f := Run(config, front).fifo;
      RunStep(config, ops);
      LatencyIsMinusTimes(config, front);
      if op.ResetStats? {
        ResetsApart(f);
      } else {
        LatencyStep(f, op);
        var before, after := Timed(config, front), Timed(config, ops);
        assert after != before ==> after[..|before|] == before && after == before + [f.queue[0]];
        WrapStep(|before|, 1);
        WrapBack(Run(config, ops).fifo.stats.latency, f.stats.latency, Times(after) - Times(before), Times(before));
      }
    }
  }

  // The levels that accepted writes left since the last reset of the statistics.
  ghost function WriteLevels(config: Config, ops: seq<Op>): set<nat>
    requires Usable(config)
    decreases |ops|
  {
    if ops == [] || ops[|ops| - 1].ResetStats? then {}
    else
      var front, level := ops[..|ops| - 1], |Run(config, ops).fifo.queue|;
      WriteLevels(config, front) +
      if ops[|ops| - 1].Write? && level > |Run(config, front).fifo.queue| then {level} else {}
  }

  // What an operation does to the peak.
  lemma PeakStep(f: Fifo, op: Op)
    requires Valid(f)
    ensures var (g, peak) := (Apply(f, op).0, f.stats.peakLevel);
      g.stats.peakLevel ==
        if op.ResetStats? then 0
        else if op.Write? && |g.queue| > |f.queue| && |g.queue| > peak then |g.queue|
        else peak
  {
    hide Older, Crossings, Cut, Wrap32;
  }

  /** The peak level is the largest of these. A commit, which does not count for the peak, can leave the buffer
      fuller. */
  lemma {:induction false} PeakIsHighest(config: Config, ops: seq<Op>)
    requires Usable(config)
    ensures var (peak, levels) := (Run(config, ops).fifo.stats.peakLevel, WriteLevels(config, ops));
      (if levels == {} then peak == 0 else peak in levels) && forall level :: level in levels ==> level <= peak
    decreases |ops|
  {
    hide Run, Apply;
    if ops == [] {
      NothingRun(config);
    } else {
      PeakIsHighest(config, ops[..|ops| - 1]);
      RunStep(config, ops);
      PeakStep(Run(config, ops[..|ops| - 1]).fifo, ops[|ops| - 1]);
    }
  }

  lemma NothingRun(config: Config)
    requires Usable(config)
    ensures Run(config, []).fifo == Create(config)
  {
  }

  // The level before each operation of a run and at its end.
  ghost function Levels(config: Config, ops: seq<Op>): (levels: seq<nat>)
    requires Usable(config)
    ensures |levels| == |ops| + 1 && levels[|ops|] == |Run(config, ops).fifo.queue|
    decreases |ops|
  {
    (if ops == [] then [] else Levels(config, ops[..|ops| - 1])) + [|Run(config, ops).fifo.queue|]
  }

  // The watermarks that the level crosses.
  function AllCrossings(c: Config, levels: seq<nat>): seq<Event>
  {
    var n := |levels| - 1;
    if n <= 0 then [] else AllCrossings(c, levels[..n]) + Crossings(c, levels[n - 1], levels[n])
  }

  predicate Announces(op: Op) { op.Write? || op.Read? }

  // No other operation crosses a watermark.
  ghost predicate NoneSilent(c: Config, ops: seq<Op>, levels: seq<nat>)
    requires |levels| == |ops| + 1
  {
    forall k :: 0 <= k < |ops| && !Announces(ops[k]) ==> Crossings(c, levels[k], levels[k + 1]) == []
  }

  lemma SilentStep(c: Config, ops: seq<Op>, levels: seq<nat>, op: Op, level: nat)
    requires |levels| == |ops| + 1
    ensures NoneSilent(c, ops + [op], levels + [level]) <==>
      NoneSilent(c, ops, levels) && (Announces(op) || Crossings(c, levels[|ops|], level) == [])
  {
    hide Crossings, Announces;
    var more, higher := ops + [op], levels + [level];
    assert more[|ops|] == op && higher[|ops|] == levels[|ops|] && higher[|ops| + 1] == level;
    assert forall k :: 0 <= k < |ops| ==> more[k] == ops[k];
    assert forall k :: 0 <= k <= |ops| ==> higher[k] == levels[k];
  }

  // The callbacks of an operation.
  lemma EventsStep(f: Fifo, op: Op)
    requires Valid(f)
    ensures var g := Apply(f, op).0;
      g.events == f.events + if Announces(op) then Crossings(f.config, |f.queue|, |g.queue|) else []
  {
    hide Older, Cut, Wrap32;
  }

  // The callbacks so far are all crossings, or there are fewer of them.
  ghost predicate Told(c: Config, events: seq<Event>, levels: seq<nat>, complete: bool)
  {
    if complete then events == AllCrossings(c, levels) else |events| < |AllCrossings(c, levels)|
  }

  lemma TellMore(c: Config, events: seq<Event>, levels: seq<nat>, complete: bool, level: nat, told: bool)
    requires levels != [] && Told(c, events, levels, complete)
    ensures var crossed := Crossings(c, levels[|levels| - 1], level);
      Told(c, events + if told then crossed else [], levels + [level], complete && (told || crossed == []))
  {
    hide Crossings;
    assert (levels + [level])[..|levels|] == levels;
  }

  lemma {:induction false} RunTells(config: Config, ops: seq<Op>)
    requires Usable(config)
    ensures var levels := Levels(config, ops);
      Told(config, Run(config, ops).fifo.events, levels, NoneSilent(config, ops, levels))
    decreases |ops|
  {
    hide Run, Apply, Told, NoneSilent, Announces, Crossings;
    if ops == [] {
      NothingTold(config);
    } else {
      var front, op := ops[..|ops| - 1], ops[|ops| - 1];
      var before, levels := Run(config, front).fifo, Levels(config, front);
      RunTells(config, front);
      RunStep(config, ops);
      EventsStep(before, op);
      assert front + [op] == ops;
      var level := |Run(config, ops).fifo.queue|;
      SilentStep(config, front, levels, op, level);
      TellMore(config, before.events, levels, NoneSilent(config, front, levels), level, Announces(op));
    }
  }

  lemma NothingTold(config: Config)
    requires Usable(config)
    ensures Told(config, Run(config, []).fifo.events, Levels(config, []), NoneSilent(config, [], Levels(config, [])))
  {
  }

  /** The watermark callbacks of a run are all crossings of the watermarks, in order, exactly if none is crossed by an
      operation other than a write or a read: those move the level without a callback. */
  lemma WatermarksAreTold(config: Config, ops: seq<Op>)
    requires Usable(config)
    ensures var levels := Levels(config, ops);
      Run(config, ops).fifo.events == AllCrossings(config, levels) <==> NoneSilent(config, ops, levels)
  {
    hide Run, Levels, NoneSilent;
    RunTells(config, ops);
  }

  // A level at which a callback was due: the high watermark from below or the low one from above.
  predicate AtMark(c: Config, e: Event)
  {
    match e
    case High(level) => level == c.highThreshold
    case Low(level) => level == c.lowThreshold
  }

  lemma CrossesAtMark(c: Config, before: nat, after: nat)
    requires after <= before + 1 && before <= after + 1
    ensures forall e :: e in Crossings(c, before, after) ==> AtMark(c, e)
  {
  }

  lemma SmallSteps(f: Fifo, op: Op)
    requires Valid(f) && Announces(op)
    ensures |f.queue| - 1 <= |Apply(f, op).0.queue| <= |f.queue| + 1
  {
  }

  /** A callback reports its own watermark and no other level. */
  lemma {:induction false} CallbacksAtMark(config: Config, ops: seq<Op>)
    requires Usable(config)
    ensures forall e :: e in Run(config, ops).fifo.events ==> AtMark(config, e)
    decreases |ops|
  {
    hide Run, Apply, Announces, Crossings, AtMark;
    if ops == [] {
      NothingRun(config);
    } else {
      var before, op := Run(config, ops[..|ops| - 1]).fifo, ops[|ops| - 1];
      CallbacksAtMark(config, ops[..|ops| - 1]);
      RunStep(config, ops);
      EventsStep(before, op);
      if Announces(op) {
        SmallSteps(before, op);
        CrossesAtMark(config, |before.queue|, |Run(config, ops).fifo.queue|);
      }
    }
  }

  lemma {:induction false} LevelAt(config: Config, ops: seq<Op>, k: nat)
    requires Usable(config) && k <= |ops|
    ensures Levels(config, ops)[k] == |Run(config, ops[..k]).fifo.queue|
    decreases |ops|
  {
    hide Run;
    if k == |ops| {
      assert ops[..k] == ops;
    } else {
      LevelAt(config, ops[..|ops| - 1], k);
      assert ops[..|ops| - 1][..k] == ops[..k];
    }
  }

  // Operation `k` of a run reports the high watermark.
  ghost predicate ReportsHigh(config: Config, ops: seq<Op>, k: nat)
    requires Usable(config) && k < |ops|
  {
    var before, after := Run(config, ops[..k]).fifo.events, Run(config, ops[..k + 1]).fifo.events;
    exists i :: |before| <= i < |after| && after[i].High?
  }

  // Or the low one.
  ghost predicate ReportsLow(config: Config, ops: seq<Op>, k: nat)
    requires Usable(config) && k < |ops|
  {
    var before, after := Run(config, ops[..k]).fifo.events, Run(config, ops[..k + 1]).fifo.events;
    exists i :: |before| <= i < |after| && after[i].Low?
  }

  lemma HighAmong(c: Config, told: seq<Event>, before: nat, after: nat)
    ensures var events := told + Crossings(c, before, after);
      (exists i :: |told| <= i < |events| && events[i].High?) <==> c.highCallback && before < c.highThreshold <= after
  {
    var events := told + Crossings(c, before, after);
    if c.highCallback && before < c.highThreshold <= after {
      assert events[|told|].High?;
    }
  }

  lemma LowAmong(c: Config, told: seq<Event>, before: nat, after: nat)
    ensures var events := told + Crossings(c, before, after);
      (exists i :: |told| <= i < |events| && events[i].Low?) <==> c.lowCallback && before > c.lowThreshold >= after
  {
    var events := told + Crossings(c, before, after);
    if c.lowCallback && before > c.lowThreshold >= after {
      assert events[|events| - 1].Low?;
    }
  }

  /** When a callback happens: exactly at a write or a read that takes the level from below the high watermark to it or
      above, or from above the low one to it or below, if there is a callback. */
  lemma ReportsAreExact(config: Config, ops: seq<Op>, k: nat)
    requires Usable(config) && k < |ops|
    ensures var (before, after) := (Levels(config, ops)[k], Levels(config, ops)[k + 1]);
      && (ReportsHigh(config, ops, k) <==>
            Announces(ops[k]) && config.highCallback && before < config.highThreshold <= after)
      && (ReportsLow(config, ops, k) <==>
            Announces(ops[k]) && config.lowCallback && before > config.lowThreshold >= after)
  {
    hide Run, Apply, Levels, Crossings;
    LevelAt(config, ops, k);
    LevelAt(config, ops, k + 1);
    assert ops[..k + 1][..k] == ops[..k];
    RunStep(config, ops[..k + 1]);
    var f, level := Run(config, ops[..k]).fifo, |Run(config, ops[..k + 1]).fifo.queue|;
    EventsStep(f, ops[k]);
    HighAmong(config, f.events, |f.queue|, level);
    LowAmong(config, f.events, |f.queue|, level);
  }

  /** Between two reports of the high watermark the level has been below it. */
  lemma HighsApart(config: Config, ops: seq<Op>, i: nat, j: nat)
    requires Usable(config) && i < j < |ops|
    ensures ReportsHigh(config, ops, i) && ReportsHigh(config, ops, j) ==>
      exists k :: i < k <= j && Levels(config, ops)[k] < config.highThreshold <= Levels(config, ops)[i + 1]
  {
    hide ReportsHigh, Levels;
    if ReportsHigh(config, ops, i) && ReportsHigh(config, ops, j) {
      ReportsAreExact(config, ops, i);
      ReportsAreExact(config, ops, j);
    }
  }

  /** A discard removes the longest front of older frames: all it removes is older, the first it keeps is not. */
  lemma DiscardIsLongest(queue: seq<Frame>, timestamp: uint32)
    ensures var n := Older(queue, timestamp);
      && (forall i :: 0 <= i < n ==> queue[i].meta.timestamp < timestamp)
      && (n < |queue| ==> queue[n].meta.timestamp >= timestamp)
  {
    if queue != [] && queue[0].meta.timestamp < timestamp {
      DiscardIsLongest(queue[1..], timestamp);
    }
  }
}
