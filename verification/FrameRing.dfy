/**
 The frame buffer of `audio_buffers.c` as its functions change it: `depth + 1` entries of which one stays
 empty, a head index that only writes move and a tail index that only reads move. Every operation does to
 the queue of frames what FrameFifo.Apply says.
 */
module FrameRing {
  import opened Words
  import opened FrameFifo
  import R = Ring

  // An entry: its share of the data pool, and its metadata.
  datatype Entry = Entry(data: seq<uint8>, meta: Meta)

  // The frame an entry stands for: as many of its bytes as its metadata say.
  function View(e: Entry): Frame
  {
    Frame(e.data[..Min(e.meta.length, |e.data|)], e.meta)
  }

  function Views(es: seq<Entry>): (r: seq<Frame>)
    ensures |r| == |es|
  {
    seq(|es|, i requires 0 <= i < |es| => View(es[i]))
  }

  // ring_level
  function Level(head: nat, tail: nat, capacity: nat): (n: nat)
    requires head < capacity && tail < capacity
    ensures n < capacity && R.Slot(tail, n, capacity) == head
  {
    if head >= tail then head - tail else capacity - tail + head
  }

  lemma LevelOfSlot(tail: nat, n: nat, capacity: nat)
    requires tail < capacity && n < capacity
    ensures Level(R.Slot(tail, n, capacity), tail, capacity) == n
  {
  }

  // The memory after memcpy of `data` to its start.
  function Overlay(memory: seq<uint8>, data: seq<uint8>): seq<uint8>
    requires |data| <= |memory|
  {
    data + memory[|data|..]
  }

  class AudioBuffer {
    const config: Config
    const capacity: nat
    const entries: array<Entry>
    var head: uint32
    var tail: uint32
    var writeSequence: uint16
    var stats: Stats
    var events: seq<Event>

    ghost predicate Valid()
      reads this, entries
    {
      && 0 < config.frameSize && 0 < config.depth <= MAX_DEPTH
      && capacity == config.depth + 1 == entries.Length
      && head < capacity && tail < capacity
      && forall i :: 0 <= i < capacity ==>
           |entries[i].data| == config.frameSize && entries[i].meta.length <= config.frameSize
    }

    ghost function Queued(n: nat): seq<Frame>
      requires tail < entries.Length && n <= entries.Length
      reads this, entries
    {
      R.Window(Views(entries[..]), tail, n)
    }

    ghost function Contents(): (f: Fifo)
      requires Valid()
      reads this, entries
      ensures FrameFifo.Valid(f)
    {
      Fifo(config, Queued(Level(head, tail, capacity)), writeSequence, stats, events)
    }

    constructor (config: Config)
      requires 0 < config.frameSize && 0 < config.depth <= MAX_DEPTH
      ensures this.config == config && Valid() && fresh(entries)
      ensures Contents() == Create(config)
    {
      this.config := config;
      capacity := config.depth + 1;
      var blank := Entry(seq(config.frameSize, _ => 0), Meta(0, 0, 0, 0, false, 0));
      entries := new Entry[config.depth + 1](_ => blank);
      head, tail, writeSequence, stats, events := 0, 0, 0, NO_STATS, [];
    }

    // audio_buffer_create: null for a configuration it refuses.
    static method Make(config: Config) returns (b: AudioBuffer?)
      ensures b == null <==> config.frameSize == 0 || config.depth == 0 || config.depth > MAX_DEPTH
      ensures b != null ==> fresh(b) && b.Valid() && b.Contents() == Create(config)
    {
      if config.frameSize == 0 || config.depth == 0 {
        return null;
      }
      if config.depth > MAX_DEPTH {
        return null;
      }
      b := new AudioBuffer(config);
    }

    // A queued frame is as long as its metadata say, and fits its entry.
    lemma WindowFits(n: nat)
      requires Valid() && n <= capacity
      ensures forall x :: x in Queued(n) ==> |x.data| == x.meta.length <= config.frameSize
    {
      if n > 0 {
        WindowFits(n - 1);
      }
    }

    method GetLevel() returns (n: uint32)
      requires Valid()
      ensures n == |Contents().queue|
    {
      n := Level(head, tail, capacity);
    }

    method GetSpace() returns (n: uint32)
      requires Valid()
      ensures n + |Contents().queue| == config.depth
    {
      n := config.depth - Level(head, tail, capacity);
    }

    method IsFull() returns (full: bool)
      requires Valid()
      ensures full <==> |Contents().queue| == config.depth
    {
      R.NextIsRemainder(head, capacity);
      full := (head + 1) % capacity == tail;
    }

    method IsEmpty() returns (empty: bool)
      requires Valid()
      ensures empty <==> Contents().queue == []
    {
      empty := head == tail;
    }

    // Stores an entry at the head and moves the head past it.
    method Append(entry: Entry)
      requires Valid() && |entry.data| == config.frameSize && entry.meta.length <= config.frameSize
      requires Level(head, tail, capacity) < config.depth
      modifies `head, entries
      ensures Valid() && Level(head, tail, capacity) == old(Level(head, tail, capacity)) + 1
      ensures Contents().queue == old(Contents().queue) + [View(entry)]
    {
      hide R.Window;
      ghost var n := Level(head, tail, capacity);
      ghost var was := Views(entries[..]);
      R.WindowPush(was, tail, n, View(entry));
      entries[head] := entry;
      assert Views(entries[..]) == was[head := View(entry)];
      R.NextIsRemainder(head, capacity);
      head := (head + 1) % capacity;
      LevelOfSlot(tail, n + 1, capacity);
    }

    // The shared end of a write: metadata, sequence number, head, counters. The data are already in the entry.
    method Publish(len: uint16, meta: Option<Meta>)
      requires Valid() && 0 < len <= config.frameSize && Level(head, tail, capacity) < config.depth
      modifies this, entries
      ensures Valid() && Contents() == Pushed(old(Contents()), old(entries[head].data[..len]), meta)
    {
      hide R.Window;
      Append(entries[head].(meta := Stored(writeSequence, meta, len)));
      writeSequence := Wrap16(writeSequence + 1);
      stats := stats.(framesWritten := Wrap32(stats.framesWritten + 1),
                      bytesWritten := Wrap32(stats.bytesWritten + len));
    }

    // memcpy into the entry at the head, which holds no queued frame.
    method Fill(data: seq<uint8>)
      requires Valid() && |data| <= config.frameSize && Level(head, tail, capacity) < config.depth
      modifies entries
      ensures Valid() && Contents() == old(Contents())
      ensures entries[head].data[..|data|] == data
    {
      ghost var n := Level(head, tail, capacity);
      var entry := entries[head].(data := Overlay(entries[head].data, data));
      R.WindowFrame(Views(entries[..]), tail, n, n, View(entry));
      ghost var was := Views(entries[..]);
      entries[head] := entry;
      assert Views(entries[..]) == was[head := View(entry)];
    }

    method CheckThresholds(before: nat, after: nat)
      modifies `events
      ensures events == old(events) + Crossings(config, before, after)
    {
      if config.highCallback && before < config.highThreshold && after >= config.highThreshold {
        events := events + [High(after)];
      }
      if config.lowCallback && before > config.lowThreshold && after <= config.lowThreshold {
        events := events + [Low(after)];
      }
    }

    method Write(data: array?<uint8>, len: uint16, meta: Option<Meta>) returns (code: Code)
      requires Valid() && (data != null ==> len <= data.Length)
      modifies this, entries
      ensures Valid()
      ensures (Contents(), code) ==
        Apply(old(Contents()), FrameFifo.Write(if data == null then [] else data[..len], meta))
    {
      if data == null || len == 0 {
        return InvalidParam;
      }
      if len > config.frameSize {
        return InvalidSize;
      }
      var full := IsFull();
      if full {
        stats := stats.(overruns := Wrap32(stats.overruns + 1));
        return Full;
      }
      Enter(data[..len], meta);
      return Ok;
    }

    // A write that fits.
    method Enter(data: seq<uint8>, meta: Option<Meta>)
      requires Valid() && 0 < |data| <= config.frameSize && Level(head, tail, capacity) < config.depth
      modifies this, entries
      ensures Valid() && Contents() == Apply(old(Contents()), FrameFifo.Write(data, meta)).0
    {
      hide R.Window;
      var before := GetLevel();
      Fill(data);
      Publish(|data|, meta);
      assert Contents() == Pushed(old(Contents()), data, meta);
      var after := GetLevel();
      if after > stats.peakLevel {
        stats := stats.(peakLevel := after);
      }
      CheckThresholds(before, after);
    }

    // audio_buffer_commit_write: the caller has filled the entry through audio_buffer_get_write_ptr.
    method CommitWrite(len: uint16, meta: Option<Meta>) returns (code: Code)
      requires Valid()
      modifies this, entries
      ensures Valid()
      ensures (Contents(), code) ==
        Apply(old(Contents()), Commit(old(entries[head].data), len, meta))
    {
      if len == 0 || len > config.frameSize {
        return InvalidSize;
      }
      var full := IsFull();
      if full {
        return Full;
      }
      Publish(len, meta);
      return Ok;
    }

    // Moves the tail past the oldest frame.
    method Advance()
      requires Valid() && head != tail
      modifies `tail
      ensures Valid()
      ensures old(Contents()).queue == [old(View(entries[tail]))] + Contents().queue
      ensures Level(head, tail, capacity) == old(Level(head, tail, capacity)) - 1
    {
      ghost var n := Level(head, tail, capacity);
      R.WindowPop(Views(entries[..]), tail, n);
      R.NextIsRemainder(tail, capacity);
      tail := (tail + 1) % capacity;
      LevelOfSlot(tail, n - 1, capacity);
    }

    // The oldest frame is the one at the tail.
    lemma FrontIsTail()
      requires Valid() && head != tail
      ensures Contents().queue != [] && Contents().queue[0] == View(entries[tail])
    {
      R.WindowPop(Views(entries[..]), tail, Level(head, tail, capacity));
    }

    // memcpy of the oldest frame to the caller.
    method CopyOut(dst: array<uint8>, maxLen: uint16) returns (len: uint16, meta: Meta)
      requires Valid() && head != tail && maxLen <= dst.Length
      modifies dst
      ensures var front := Contents().queue[0];
        && len == |Cut(front, maxLen)| && dst[..len] == Cut(front, maxLen) && meta == front.meta
        && forall i :: len <= i < dst.Length ==> dst[i] == old(dst[i])
    {
      FrontIsTail();
      var entry := entries[tail];
      meta := entry.meta;
      len := if entry.meta.length < maxLen then entry.meta.length else maxLen;
      for i := 0 to len
        invariant forall k :: 0 <= k < dst.Length ==> dst[k] == if k < i then entry.data[k] else old(dst[k])
      {
        dst[i] := entry.data[i];
      }
      assert dst[..len] == entry.data[..len];
    }

    method Read(dst: array?<uint8>, maxLen: uint16) returns (code: Code, len: uint16, meta: Meta)
      requires Valid() && (dst != null ==> maxLen <= dst.Length)
      modifies this, dst
      ensures Valid()
      ensures dst == null ==> code == InvalidParam && Contents() == old(Contents())
      ensures dst != null ==> (Contents(), code) == Apply(old(Contents()), FrameFifo.Read(maxLen))
      ensures code == Ok ==>
        var front := old(Contents()).queue[0];
        && len == |Cut(front, maxLen)| && dst[..len] == Cut(front, maxLen) && meta == front.meta
        && forall i :: len <= i < dst.Length ==> dst[i] == old(dst[i])
      ensures code != Ok && dst != null ==> dst[..] == old(dst[..])
    {
      len, meta := 0, Meta(0, 0, 0, 0, false, 0);
      if dst == null {
        return InvalidParam, len, meta;
      }
      var empty := IsEmpty();
      if empty {
        stats := stats.(underruns := Wrap32(stats.underruns + 1));
        return Empty, len, meta;
      }
      len, meta := CopyOut(dst, maxLen);
      Leave(len);
      code := Ok;
    }

    // The second half of a read: latency, tail, counters, watermarks.
    method Leave(bytes: uint16)
      requires Valid() && head != tail
      modifies this
      ensures Valid()
      ensures var f := old(Contents());
        && f.queue != []
        && Contents() == f.(queue := f.queue[1..], stats := ReadStats(f.stats, config, f.queue[0].meta, bytes),
                            events := f.events + Crossings(config, |f.queue|, |f.queue| - 1))
    {
      hide R.Window;
      FrontIsTail();
      var before := GetLevel();
      var meta := entries[tail].meta;
      Advance();
      CountRead(meta, bytes);
      var after := GetLevel();
      CheckThresholds(before, after);
    }

    method CountRead(meta: Meta, bytes: uint16)
      modifies `stats
      ensures stats == ReadStats(old(stats), config, meta, bytes)
    {
      if config.track && meta.valid {
        stats := stats.(latency := Wrap32(stats.latency + Wrap32(NOW - meta.timestamp)),
                        latencyFrames := Wrap32(stats.latencyFrames + 1));
      }
      stats := stats.(framesRead := Wrap32(stats.framesRead + 1), bytesRead := Wrap32(stats.bytesRead + bytes));
    }

    method CommitRead() returns (code: Code)
      requires Valid()
      modifies this
      ensures Valid() && (Contents(), code) == Apply(old(Contents()), FrameFifo.CommitRead)
    {
      var empty := IsEmpty();
      if empty {
        return Empty;
      }
      Release();
      code := Ok;
    }

    // The oldest frame counts as read, and leaves.
    method Release()
      requires Valid() && head != tail
      modifies this
      ensures Valid()
      ensures var f := old(Contents());
        && f.queue != []
        && Contents() == f.(queue := f.queue[1..],
                            stats := f.stats.(framesRead := Wrap32(f.stats.framesRead + 1),
                                              bytesRead := Wrap32(f.stats.bytesRead + f.queue[0].meta.length)))
    {
      hide R.Window, Wrap32;
      FrontIsTail();
      var len := entries[tail].meta.length;
      stats := stats.(framesRead := Wrap32(stats.framesRead + 1), bytesRead := Wrap32(stats.bytesRead + len));
      Advance();
    }

    /** A peek returns what a read would, and leaves the buffer alone. */
    method Peek(dst: array?<uint8>, maxLen: uint16) returns (code: Code, len: uint16, meta: Meta)
      requires Valid() && (dst != null ==> maxLen <= dst.Length)
      modifies dst
      ensures code == if dst == null then InvalidParam else if Contents().queue == [] then Empty else Ok
      ensures code == Ok ==>
        var front := Contents().queue[0];
        && len == |Cut(front, maxLen)| && dst[..len] == Cut(front, maxLen) && meta == front.meta
        && forall i :: len <= i < dst.Length ==> dst[i] == old(dst[i])
      ensures code != Ok && dst != null ==> dst[..] == old(dst[..])
    {
      len, meta := 0, Meta(0, 0, 0, 0, false, 0);
      if dst == null {
        return InvalidParam, len, meta;
      }
      var empty := IsEmpty();
      if empty {
        return Empty, len, meta;
      }
      len, meta := CopyOut(dst, maxLen);
      code := Ok;
    }

    method Skip() returns (code: Code)
      requires Valid()
      modifies this
      ensures Valid() && (Contents(), code) == Apply(old(Contents()), FrameFifo.Skip)
    {
      var empty := IsEmpty();
      if empty {
        return Empty;
      }
      Advance();
      code := Ok;
    }

    method DiscardBefore(timestamp: uint32) returns (discarded: uint32)
      requires Valid()
      modifies this
      ensures Valid() && Contents() == Apply(old(Contents()), FrameFifo.DiscardBefore(timestamp)).0
      ensures discarded == Older(old(Contents()).queue, timestamp)
    {
      hide R.Window;
      discarded := 0;
      ghost var all := Contents().queue;
      while head != tail
        invariant Valid() && discarded <= |all| && Contents() == old(Contents()).(queue := all[discarded..])
        invariant Older(all, timestamp) == discarded + Older(all[discarded..], timestamp)
        decreases Level(head, tail, capacity)
      {
        FrontIsTail();
        OlderStep(all, discarded, timestamp);
        if entries[tail].meta.timestamp >= timestamp {
          break;
        }
        Advance();
        assert Contents().queue == all[discarded + 1..];
        discarded := discarded + 1;
      }
    }

    static lemma OlderStep(all: seq<Frame>, n: nat, timestamp: uint32)
      requires n < |all|
      ensures Older(all[n..], timestamp) ==
        if all[n].meta.timestamp >= timestamp then 0 else 1 + Older(all[n + 1..], timestamp)
      ensures all[n..][0] == all[n]
    {
      assert all[n..][1..] == all[n + 1..];
    }

    method ResetStats()
      requires Valid()
      modifies this
      ensures Valid() && Contents() == Apply(old(Contents()), FrameFifo.ResetStats).0
    {
      stats := NO_STATS;
    }

    method Reset()
      requires Valid()
      modifies this, entries
      ensures Valid() && Contents() == Apply(old(Contents()), FrameFifo.Reset).0
    {
      head, tail, writeSequence := 0, 0, 0;
      for i := 0 to capacity
        invariant Valid() && head == tail == 0 && writeSequence == 0 && stats == old(stats) && events == old(events)
      {
        var e := entries[i];
        entries[i] := e.(meta := e.meta.(valid := false, length := 0));
      }
    }

    /** audio_buffer_get_bytes: the sum of the lengths of the queued frames. */
    method GetBytes() returns (total: uint32)
      requires Valid()
      ensures total == Total(Contents().queue)
    {
      hide R.Window;
      total := 0;
      var index := tail;
      ghost var n := Level(head, tail, capacity);
      ghost var seen := 0;
      while index != head
        invariant 0 <= seen <= n && index == R.Slot(tail, seen, capacity)
        invariant total == Total(Queued(seen)) <= seen * 0xFFFF
        decreases n - seen
      {
        SlotStep(seen, n);
        BytesStep(seen);
        total := Wrap32(total + entries[index].meta.length);
        index := (index + 1) % capacity;
        seen := seen + 1;
      }
      if seen < n {
        SlotStep(seen, n);
      }
    }

    lemma SlotStep(seen: nat, n: nat)
      requires Valid() && n == Level(head, tail, capacity) && seen <= n
      ensures R.Slot(tail, seen, capacity) == head <==> seen == n
      ensures (R.Slot(tail, seen, capacity) + 1) % capacity == R.Slot(tail, seen + 1, capacity)
    {
      R.NextIsRemainder(R.Slot(tail, seen, capacity), capacity);
    }

    lemma BytesStep(n: nat)
      requires Valid() && n < capacity - 1
      ensures Total(Queued(n + 1)) == Total(Queued(n)) + entries[R.Slot(tail, n, capacity)].meta.length
    {
      var front := Queued(n);
      assert Queued(n + 1)[..n] == front;
      assert |View(entries[R.Slot(tail, n, capacity)]).data| == entries[R.Slot(tail, n, capacity)].meta.length;
    }
  }
}
