/**
 The two directions of the stream context in `i2s_stream.c`, as the C functions change it: start and
 stop, the two interrupt handlers, and the blocking read and write loops. While a call is blocked the
 handler may run any number of times; interruptions in the middle of a copy are the subject of StreamRace.
 */
module I2sStream {
  import opened Words
  import opened SampleRing
  import SR = StreamRace

  const ERROR_PARAM := -1
  const ERROR_STOPPED := -2
  const ERROR_HARDWARE := -2

  // The two DMA buffers of one direction; the handler works on the inactive one.
  class PingPong {
    const buffers: seq<array<int16>>
    var active: uint8

    ghost predicate Valid()
      reads this
    {
      && |buffers| == 2 && buffers[0] != buffers[1] && buffers[0].Length == buffers[1].Length && active <= 1
    }

    constructor (size: nat)
      ensures Valid() && active == 0 && fresh(buffers[0]) && fresh(buffers[1])
      ensures buffers[0].Length == size
      ensures forall i :: 0 <= i < size ==> buffers[0][i] == 0 == buffers[1][i]
    {
      var first := new int16[size](_ => 0);
      var second := new int16[size](_ => 0);
      buffers := [first, second];
      active := 0;
    }

    function Inactive(): array<int16>
      requires Valid()
      reads this
    {
      buffers[1 - active]
    }

    function Active(): array<int16>
      requires Valid()
      reads this
    {
      buffers[active]
    }

    /** The block that the handler has filled is played, and it gets the other one to fill. */
    method Swap()
      requires Valid()
      modifies this
      ensures Valid() && Active() == old(Inactive()) && Inactive() == old(Active())
    {
      active := 1 - active;
    }
  }

  // What the loops keep: nothing has happened yet, or the first round has moved all that was possible, and ended the
  // call if that was enough or if it may not wait.
  predicate Begun(moved: nat, more: bool, wanted: nat, ticks: uint32, possible: nat, sameRing: bool, sameTime: bool)
  {
    || (more && moved == 0 && sameRing && sameTime)
    || (&& moved >= Min(wanted, possible)
        && (ticks == 0 ==> !more && moved == Min(wanted, possible))
        && (wanted <= possible ==> !more && sameTime))
  }

  class TxStream {
    const size: uint16
    const ring: RingBuffer
    const dma: PingPong
    var initialized: bool
    var running: bool
    var frames: uint32
    var underruns: uint32
    var token: bool
    var clock: nat
    ghost var wrote: seq<int16>
    ghost var played: seq<int16>

    ghost predicate Valid()
      reads this, ring, ring.buffer, dma
    {
      && (running ==> initialized)
      && ring.Valid() && dma.Valid() && ring.buffer !in dma.buffers
      && 0 < size <= 960 && ring.size == 4 * size && dma.buffers[0].Length == size
      && wrote == played + ring.Contents()
    }

    constructor (size: uint16)
      requires 0 < size <= 960
      ensures Valid() && initialized && !running && ring.Contents() == [] && fresh(ring) && fresh(ring.buffer)
      ensures frames == underruns == 0 && !token && clock == 0 && wrote == [] == played
      ensures fresh(dma) && fresh(dma.buffers[0]) && fresh(dma.buffers[1])
    {
      this.size := size;
      var memory := new int16[3840](_ => 0);
      ring := new RingBuffer(memory, 4 * size);
      dma := new PingPong(size);
      initialized, running, frames, underruns, token, clock := true, false, 0, 0, false, 0;
      wrote, played := [], [];
    }

    /** i2s_stream_start; `hardware` says whether the peripheral starts. */
    method Start(hardware: bool) returns (r: int)
      requires Valid()
      modifies this, ring, dma.buffers[0], dma.buffers[1]
      ensures Valid() && initialized == old(initialized) && token == old(token) && clock == old(clock)
      ensures r == if !initialized then ERROR_PARAM else if !old(running) && !hardware then ERROR_HARDWARE else 0
      ensures running <==> r == 0
      ensures !initialized || old(running) ==>
        && ring.Contents() == old(ring.Contents()) && wrote == old(wrote) && played == old(played)
        && frames == old(frames) && underruns == old(underruns)
      ensures initialized && !old(running) ==>
        && ring.Contents() == [] == wrote == played && frames == underruns == 0
        && forall i :: 0 <= i < size ==> dma.buffers[0][i] == 0 == dma.buffers[1][i]
    {
      if !initialized {
        return ERROR_PARAM;
      }
      if running {
        return 0;
      }
      ring.Clear();
      frames, underruns := 0, 0;
      Silence(dma.buffers[0], 0);
      Silence(dma.buffers[1], 0);
      wrote, played := [], [];
      running := true;
      if !hardware {
        running := false;
        return ERROR_HARDWARE;
      }
      return 0;
    }

    method Stop() returns (r: int)
      requires Valid()
      modifies `running
      ensures Valid() && !running && ring.Contents() == old(ring.Contents())
      ensures r == if initialized then 0 else ERROR_PARAM
    {
      if !initialized {
        return ERROR_PARAM;
      }
      running := false;
      return 0;
    }

    method Deinit()
      requires Valid()
      modifies `running, `initialized
      ensures Valid() && !running && !initialized
    {
      initialized, running := false, false;
    }

    /** The TX handler fills the inactive DMA buffer with the oldest samples and silence, and makes it active. */
    method Isr()
      requires Valid()
      modifies this, ring, dma, dma.Inactive()
      ensures Valid() && running == old(running) && clock == old(clock) && wrote == old(wrote)
      ensures !old(running) ==> unchanged(this, ring, dma, dma.buffers[0], dma.buffers[1])
      ensures old(running) ==>
        var n := Min(size, |old(ring.Contents())|);
        && dma.Active() == old(dma.Inactive()) && dma.Inactive() == old(dma.Active())
        && dma.Active()[..] == SR.Padded(old(ring.Contents())[..n], size)
        && ring.Contents() == old(ring.Contents())[n..] && played == old(played) + old(ring.Contents())[..n]
        && frames == Wrap32(old(frames) + 1)
        && underruns == (if n < size then Wrap32(old(underruns) + 1) else old(underruns))
        && token
    {
      if !running {
        return;
      }
      var block := dma.Inactive();
      var got := Play(block);
      if got < size {
        underruns := Wrap32(underruns + 1);
      }
      frames := Wrap32(frames + 1);
      dma.Swap();
      token := true;
    }

    // Fills a DMA buffer from the ring, and with silence where the ring ends.
    method Play(block: array<int16>) returns (got: uint32)
      requires Valid() && block.Length == size && block in dma.buffers
      modifies ring, `played, block
      ensures Valid() && got == Min(size, |old(ring.Contents())|)
      ensures block[..] == SR.Padded(old(ring.Contents())[..got], size)
      ensures ring.Contents() == old(ring.Contents())[got..] && played == old(played) + old(ring.Contents())[..got]
    {
      ghost var waiting := ring.Contents();
      got := ring.Read(block, 0, size);
      played := played + waiting[..got];
      assert waiting == waiting[..got] + waiting[got..];
      Silence(block, got);
    }

    /** xSemaphoreTake: while the task is blocked the handler may run; the wait ends with the semaphore taken,
        or at its deadline. An endless wait sees the handler run, since the stream is running. */
    method Wait(remaining: uint32) returns (taken: bool)
      requires Valid() && 0 < remaining && running
      modifies this, ring, dma, dma.buffers[0], dma.buffers[1]
      ensures Valid() && running == old(running) && wrote == old(wrote) && !token
      ensures old(clock) <= clock && (remaining == SR.FOREVER ==> taken)
      ensures remaining != SR.FOREVER ==>
        clock <= old(clock) + remaining && (!taken ==> clock == old(clock) + remaining)
      ensures old(token) ==> taken
      ensures taken && !old(token) ==> |ring.Contents()| < ring.size
      ensures |ring.Contents()| <= |old(ring.Contents())|
    {
      var interrupts: nat :| remaining == SR.FOREVER ==> token || 0 < interrupts;
      var ticks: nat :| 0 <= ticks;
      for i := 0 to interrupts
        invariant Valid() && running == old(running) && wrote == old(wrote) && clock == old(clock)
        invariant old(token) || 0 < i ==> token
        invariant token && !old(token) ==> |ring.Contents()| < ring.size
        invariant |ring.Contents()| <= |old(ring.Contents())|
      {
        Isr();
      }
      taken := token;
      token := false;
      clock := clock + if taken && (ticks < remaining || remaining == SR.FOREVER) then ticks else remaining;
    }

    // One try of the write loop.
    method Offer(buffer: array<int16>, written: nat, wanted: uint16) returns (moved: uint32)
      requires Valid() && written < wanted <= buffer.Length && buffer != ring.buffer
      modifies ring, ring.buffer, `wrote
      ensures Valid() && moved == Min(wanted - written, ring.size - |old(ring.Contents())|)
      ensures wrote == old(wrote) + buffer[written..written + moved]
      ensures ring.Contents() == old(ring.Contents()) + buffer[written..written + moved]
    {
      moved := ring.Write(buffer, written, wanted - written);
      wrote := wrote + buffer[written..written + moved];
    }

    /** i2s_stream_write: refused exactly for a missing initialisation, buffer or size, or a stream that does not run.
        Otherwise it writes at least what had room when it was called, without waiting if all of it had; with an endless
        timeout it writes everything. */
    method Write(buffer: array?<int16>, wanted: uint16, ticks: uint32) returns (r: int)
      requires Valid()
      requires buffer != null ==> wanted <= buffer.Length && buffer != ring.buffer && buffer !in dma.buffers
      modifies this, ring, ring.buffer, dma, dma.buffers[0], dma.buffers[1]
      ensures Valid() && initialized == old(initialized)
      ensures !initialized || buffer == null || wanted == 0 ==> r == ERROR_PARAM
      ensures initialized && buffer != null && wanted > 0 && !old(running) ==> r == ERROR_STOPPED
      ensures r >= 0 <==> initialized && buffer != null && wanted > 0 && old(running)
      ensures r < 0 ==> wrote == old(wrote) && clock == old(clock) && ring.Contents() == old(ring.Contents())
      ensures r >= 0 ==> r <= wanted && buffer != null && wrote == old(wrote) + buffer[..r]
      ensures 0 <= r < wanted ==> ticks != SR.FOREVER && clock == old(clock) + ticks
      ensures r >= 0 ==>
        var room := ring.size - |old(ring.Contents())|;
        && r >= Min(wanted, room) && (ticks == 0 ==> r == Min(wanted, room)) && (wanted <= room ==> clock == old(clock))
      ensures old(clock) <= clock && (ticks != SR.FOREVER ==> clock <= old(clock) + ticks)
    {
      if !initialized || buffer == null || wanted == 0 {
        return ERROR_PARAM;
      }
      if !running {
        return ERROR_STOPPED;
      }
      var written := WriteLoop(buffer, wanted, ticks);
      r := written;
    }

    // `xTaskGetTickCount() - start_ticks`, on 32-bit counters.
    method Elapsed(started: uint32, ghost start: nat) returns (elapsed: uint32)
      requires started == Wrap32(start) && start <= clock
      ensures clock < start + U32 ==> elapsed == clock - start
    {
      if clock < start + U32 {
        WrapDistance(start, clock);
      }
      elapsed := Wrap32(Wrap32(clock) - started);
    }

    // What makes the loop end, beside the samples left: a used-up timeout, else free space, else no token.
    ghost function Rank(ticks: uint32, start: nat): nat
      reads this, ring
    {
      if ticks != SR.FOREVER && clock == start + ticks then 0
      else if ring.count < ring.size then 1
      else if token then 3 else 2
    }

    // One round of the write loop: a try, and a wait if that was not enough.
    method Round(buffer: array<int16>, before: uint32, wanted: uint16, ticks: uint32, started: uint32, ghost start: nat)
      returns (written: uint32, more: bool)
      requires Valid() && running && before < wanted <= buffer.Length
      requires buffer != ring.buffer && buffer !in dma.buffers
      requires started == Wrap32(start) && start <= clock && (ticks != SR.FOREVER ==> clock <= start + ticks)
      modifies this, ring, ring.buffer, dma, dma.buffers[0], dma.buffers[1]
      ensures Valid() && running && before <= written <= wanted
      ensures wrote == old(wrote) + old(buffer[..])[before..written]
      ensures old(clock) <= clock && (ticks != SR.FOREVER ==> clock <= start + ticks)
      ensures more ==> ticks != 0 && (written > before || Rank(ticks, start) < old(Rank(ticks, start)))
      ensures !more ==> written == wanted || (ticks != SR.FOREVER && clock == start + ticks)
      ensures written == before + Min(wanted - before, ring.size - |old(ring.Contents())|)
      ensures written == wanted ==> clock == old(clock)
    {
      hide Wrap32;
      var moved := Offer(buffer, before, wanted);
      written := before + moved;
      if written >= wanted || ticks == 0 {
        return written, false;
      }
      var elapsed := Elapsed(started, start);
      if elapsed >= ticks && ticks != SR.FOREVER {
        return written, false;
      }
      var taken := Wait(if ticks == SR.FOREVER then SR.FOREVER else ticks - elapsed);
      more := true;
    }

    method WriteLoop(buffer: array<int16>, wanted: uint16, ticks: uint32) returns (written: uint32)
      requires Valid() && running && 0 < wanted <= buffer.Length
      requires buffer != ring.buffer && buffer !in dma.buffers
      modifies this, ring, ring.buffer, dma, dma.buffers[0], dma.buffers[1]
      ensures Valid() && running && written <= wanted && wrote == old(wrote) + buffer[..written]
      ensures old(clock) <= clock && (ticks != SR.FOREVER ==> clock <= old(clock) + ticks)
      ensures written < wanted ==> ticks != SR.FOREVER && clock == old(clock) + ticks
      ensures var room := ring.size - |old(ring.Contents())|;
        && written >= Min(wanted, room) && (ticks == 0 ==> written == Min(wanted, room))
        && (wanted <= room ==> clock == old(clock))
    {
      written := 0;
      var started := Wrap32(clock);
      var more := true;
      ghost var data := buffer[..];
      while more
        invariant Valid() && running && written <= wanted && buffer[..] == data
        invariant old(clock) <= clock && (ticks != SR.FOREVER ==> clock <= old(clock) + ticks)
        invariant wrote == old(wrote) + data[..written]
        invariant if more then written < wanted
                  else written == wanted || (ticks != SR.FOREVER && clock == old(clock) + ticks)
        invariant Begun(written, more, wanted, ticks, ring.size - |old(ring.Contents())|,
                        ring.Contents() == old(ring.Contents()), clock == old(clock))
        decreases more, wanted - written, Rank(ticks, old(clock))
      {
        ghost var before := written;
        written, more := Round(buffer, written, wanted, ticks, started, old(clock));
        assert data[..written] == data[..before] + data[before..written];
        more := more && written < wanted;
      }
      assert buffer[..written] == data[..written];
    }
  }

  class RxStream {
    const size: uint16
    const ring: RingBuffer
    const dma: PingPong
    var initialized: bool
    var running: bool
    var frames: uint32
    var overruns: uint32
    var token: bool
    var clock: nat
    ghost var received: seq<int16>
    ghost var taken: seq<int16>

    ghost predicate Valid()
      reads this, ring, ring.buffer, dma
    {
      && (running ==> initialized)
      && ring.Valid() && dma.Valid() && ring.buffer !in dma.buffers
      && 0 < size <= 960 && ring.size == 4 * size && dma.buffers[0].Length == size
      && received == taken + ring.Contents()
    }

    constructor (size: uint16)
      requires 0 < size <= 960
      ensures Valid() && initialized && !running && ring.Contents() == [] && fresh(ring) && fresh(ring.buffer)
      ensures frames == overruns == 0 && !token && clock == 0 && received == [] == taken
      ensures fresh(dma) && fresh(dma.buffers[0]) && fresh(dma.buffers[1])
    {
      this.size := size;
      var memory := new int16[3840](_ => 0);
      ring := new RingBuffer(memory, 4 * size);
      dma := new PingPong(size);
      initialized, running, frames, overruns, token, clock := true, false, 0, 0, false, 0;
      received, taken := [], [];
    }

    /** i2s_stream_start; `hardware` says whether the peripheral starts. */
    method Start(hardware: bool) returns (r: int)
      requires Valid()
      modifies this, ring
      ensures Valid() && initialized == old(initialized) && token == old(token) && clock == old(clock)
      ensures r == if !initialized then ERROR_PARAM else if !old(running) && !hardware then ERROR_HARDWARE else 0
      ensures running <==> r == 0
      ensures !initialized || old(running) ==>
        && ring.Contents() == old(ring.Contents()) && received == old(received) && taken == old(taken)
        && frames == old(frames) && overruns == old(overruns)
      ensures initialized && !old(running) ==> ring.Contents() == [] == received == taken && frames == overruns == 0
    {
      if !initialized {
        return ERROR_PARAM;
      }
      if running {
        return 0;
      }
      ring.Clear();
      frames, overruns := 0, 0;
      received, taken := [], [];
      running := true;
      if !hardware {
        running := false;
        return ERROR_HARDWARE;
      }
      return 0;
    }

    method Stop() returns (r: int)
      requires Valid()
      modifies `running
      ensures Valid() && !running && ring.Contents() == old(ring.Contents())
      ensures r == if initialized then 0 else ERROR_PARAM
    {
      if !initialized {
        return ERROR_PARAM;
      }
      running := false;
      return 0;
    }

    method Deinit()
      requires Valid()
      modifies `running, `initialized
      ensures Valid() && !running && !initialized
    {
      initialized, running := false, false;
    }

    /** The RX handler drains the FIFO into the inactive DMA buffer, fills it up with silence, and queues as much
        of it as the ring can hold. */
    method Isr(fifo: seq<int16>)
      requires Valid()
      modifies this, ring, ring.buffer, dma, dma.Inactive()
      ensures Valid() && running == old(running) && clock == old(clock) && taken == old(taken)
      ensures !old(running) ==> unchanged(this, ring, ring.buffer, dma, dma.buffers[0], dma.buffers[1])
      ensures old(running) ==>
        var block, n := SR.Padded(fifo, size), Min(size, ring.size - |old(ring.Contents())|);
        && dma.Active() == old(dma.Inactive()) && dma.Inactive() == old(dma.Active()) && dma.Active()[..] == block
        && ring.Contents() == old(ring.Contents()) + block[..n] && received == old(received) + block[..n]
        && frames == Wrap32(old(frames) + 1)
        && overruns == (if n < size then Wrap32(old(overruns) + 1) else old(overruns))
        && token
    {
      if !running {
        return;
      }
      var block := dma.Inactive();
      Drain(block, fifo);
      var queued := Queue(block);
      if queued < size {
        overruns := Wrap32(overruns + 1);
      }
      frames := Wrap32(frames + 1);
      dma.Swap();
      token := true;
    }

    method Queue(block: array<int16>) returns (queued: uint32)
      requires Valid() && block.Length == size && block != ring.buffer && block in dma.buffers
      modifies ring, ring.buffer, `received
      ensures Valid() && queued == Min(size, ring.size - |old(ring.Contents())|)
      ensures ring.Contents() == old(ring.Contents()) + block[..queued]
      ensures received == old(received) + block[..queued]
    {
      queued := ring.Write(block, 0, size);
      assert block[0..0 + queued] == block[..queued];
      received := received + block[..queued];
    }

    method Wait(remaining: uint32) returns (woken: bool)
      requires Valid() && 0 < remaining && running
      modifies this, ring, ring.buffer, dma, dma.buffers[0], dma.buffers[1]
      ensures Valid() && running == old(running) && taken == old(taken) && !token
      ensures old(clock) <= clock && (remaining == SR.FOREVER ==> woken)
      ensures remaining != SR.FOREVER ==>
        clock <= old(clock) + remaining && (!woken ==> clock == old(clock) + remaining)
      ensures old(token) ==> woken
      ensures woken && !old(token) ==> 0 < |ring.Contents()|
      ensures |ring.Contents()| >= |old(ring.Contents())|
    {
      var interrupts: nat :| remaining == SR.FOREVER ==> token || 0 < interrupts;
      var ticks: nat :| 0 <= ticks;
      for i := 0 to interrupts
        invariant Valid() && running == old(running) && taken == old(taken) && clock == old(clock)
        invariant old(token) || 0 < i ==> token
        invariant token && !old(token) ==> 0 < |ring.Contents()|
        invariant |ring.Contents()| >= |old(ring.Contents())|
      {
        var fifo: seq<int16> :| 0 <= |fifo|;
        Isr(fifo);
      }
      woken := token;
      token := false;
      clock := clock + if woken && (ticks < remaining || remaining == SR.FOREVER) then ticks else remaining;
    }

    method Elapsed(started: uint32, ghost start: nat) returns (elapsed: uint32)
      requires started == Wrap32(start) && start <= clock
      ensures clock < start + U32 ==> elapsed == clock - start
    {
      if clock < start + U32 {
        WrapDistance(start, clock);
      }
      elapsed := Wrap32(Wrap32(clock) - started);
    }

    // One try of the read loop.
    method Fetch(buffer: array<int16>, got: nat, wanted: uint16) returns (moved: uint32)
      requires Valid() && got < wanted <= buffer.Length && buffer != ring.buffer && buffer !in dma.buffers
      modifies ring, buffer, `taken
      ensures Valid() && moved == Min(wanted - got, |old(ring.Contents())|)
      ensures taken == old(taken) + buffer[got..got + moved]
      ensures ring.Contents() == old(ring.Contents())[moved..]
      ensures forall i :: 0 <= i < buffer.Length && !(got <= i < got + moved) ==> buffer[i] == old(buffer[i])
    {
      ghost var waiting := ring.Contents();
      moved := ring.Read(buffer, got, wanted - got);
      assert buffer[got..got + moved] == waiting[..moved];
      Taken(received, taken, waiting, moved);
      taken := taken + buffer[got..got + moved];
    }

    static lemma Taken(received: seq<int16>, taken: seq<int16>, waiting: seq<int16>, n: nat)
      requires received == taken + waiting && n <= |waiting|
      ensures received == (taken + waiting[..n]) + waiting[n..]
    {
    }

    /** i2s_stream_read: refused exactly as a write. Otherwise it reads at least what waited when it was called, without
        waiting if that was enough; with an endless timeout it reads everything. */
    method Read(buffer: array?<int16>, wanted: uint16, ticks: uint32) returns (r: int)
      requires Valid()
      requires buffer != null ==> wanted <= buffer.Length && buffer != ring.buffer && buffer !in dma.buffers
      modifies this, ring, ring.buffer, dma, dma.buffers[0], dma.buffers[1], buffer
      ensures Valid() && initialized == old(initialized)
      ensures !initialized || buffer == null || wanted == 0 ==> r == ERROR_PARAM
      ensures initialized && buffer != null && wanted > 0 && !old(running) ==> r == ERROR_STOPPED
      ensures r >= 0 <==> initialized && buffer != null && wanted > 0 && old(running)
      ensures r < 0 ==>
        && taken == old(taken) && clock == old(clock) && ring.Contents() == old(ring.Contents())
        && (buffer != null ==> buffer[..] == old(buffer[..]))
      ensures r >= 0 ==>
        && r <= wanted && buffer != null && taken == old(taken) + buffer[..r]
        && forall i :: r <= i < buffer.Length ==> buffer[i] == old(buffer[i])
      ensures 0 <= r < wanted ==> ticks != SR.FOREVER && clock == old(clock) + ticks
      ensures r >= 0 ==>
        var waiting := |old(ring.Contents())|;
        && r >= Min(wanted, waiting) && (ticks == 0 ==> r == Min(wanted, waiting))
        && (wanted <= waiting ==> clock == old(clock))
      ensures old(clock) <= clock && (ticks != SR.FOREVER ==> clock <= old(clock) + ticks)
    {
      if !initialized || buffer == null || wanted == 0 {
        return ERROR_PARAM;
      }
      if !running {
        return ERROR_STOPPED;
      }
      var got := ReadLoop(buffer, wanted, ticks);
      r := got;
    }

    // What makes the loop end, beside the samples left: a used-up timeout, else samples waiting, else no token.
    ghost function Rank(ticks: uint32, start: nat): nat
      reads this, ring
    {
      if ticks != SR.FOREVER && clock == start + ticks then 0 else if ring.count > 0 then 1 else if token then 3 else 2
    }

    // One round of the read loop: a try, and a wait if that was not enough.
    method Round(buffer: array<int16>, before: uint32, wanted: uint16, ticks: uint32, started: uint32, ghost start: nat)
      returns (got: uint32, more: bool)
      requires Valid() && running && before < wanted <= buffer.Length
      requires buffer != ring.buffer && buffer !in dma.buffers
      requires started == Wrap32(start) && start <= clock && (ticks != SR.FOREVER ==> clock <= start + ticks)
      modifies this, ring, ring.buffer, dma, dma.buffers[0], dma.buffers[1], buffer
      ensures Valid() && running && before <= got <= wanted
      ensures taken == old(taken) + buffer[before..got]
      ensures forall i :: 0 <= i < buffer.Length && !(before <= i < got) ==> buffer[i] == old(buffer[i])
      ensures old(clock) <= clock && (ticks != SR.FOREVER ==> clock <= start + ticks)
      ensures more ==> ticks != 0 && (got > before || Rank(ticks, start) < old(Rank(ticks, start)))
      ensures !more ==> got == wanted || (ticks != SR.FOREVER && clock == start + ticks)
      ensures got == before + Min(wanted - before, |old(ring.Contents())|)
      ensures got == wanted ==> clock == old(clock)
    {
      hide Wrap32;
      var moved := Fetch(buffer, before, wanted);
      got := before + moved;
      if got >= wanted || ticks == 0 {
        return got, false;
      }
      var elapsed := Elapsed(started, start);
      if elapsed >= ticks && ticks != SR.FOREVER {
        return got, false;
      }
      var woken := Wait(if ticks == SR.FOREVER then SR.FOREVER else ticks - elapsed);
      more := true;
    }

    method ReadLoop(buffer: array<int16>, wanted: uint16, ticks: uint32) returns (got: uint32)
      requires Valid() && running && 0 < wanted <= buffer.Length
      requires buffer != ring.buffer && buffer !in dma.buffers
      modifies this, ring, ring.buffer, dma, dma.buffers[0], dma.buffers[1], buffer
      ensures Valid() && running && got <= wanted && taken == old(taken) + buffer[..got]
      ensures forall i :: got <= i < buffer.Length ==> buffer[i] == old(buffer[i])
      ensures old(clock) <= clock && (ticks != SR.FOREVER ==> clock <= old(clock) + ticks)
      ensures got < wanted ==> ticks != SR.FOREVER && clock == old(clock) + ticks
      ensures var waiting := |old(ring.Contents())|;
        && got >= Min(wanted, waiting) && (ticks == 0 ==> got == Min(wanted, waiting))
        && (wanted <= waiting ==> clock == old(clock))
    {
      got := 0;
      var started := Wrap32(clock);
      var more := true;
      ghost var data := [];
      while more
        invariant Valid() && running && got <= wanted && buffer[..got] == data
        invariant old(clock) <= clock && (ticks != SR.FOREVER ==> clock <= old(clock) + ticks)
        invariant taken == old(taken) + data
        invariant forall i :: got <= i < buffer.Length ==> buffer[i] == old(buffer[i])
        invariant if more then got < wanted else got == wanted || (ticks != SR.FOREVER && clock == old(clock) + ticks)
        invariant Begun(got, more, wanted, ticks, |old(ring.Contents())|,
                        ring.Contents() == old(ring.Contents()), clock == old(clock))
        decreases more, wanted - got, Rank(ticks, old(clock))
      {
        ghost var before := got;
        got, more := Round(buffer, got, wanted, ticks, started, old(clock));
        assert buffer[..before] == data && buffer[..got] == buffer[..before] + buffer[before..got];
        data := data + buffer[before..got];
        more := more && got < wanted;
      }
    }
  }

  // The copy from the FIFO and the zeros behind it.
  method Drain(block: array<int16>, fifo: seq<int16>)
    modifies block
    ensures block[..] == SR.Padded(fifo, block.Length)
  {
    var i := 0;
    while i < block.Length && i < |fifo|
      invariant i <= block.Length && i <= |fifo|
      invariant forall k :: 0 <= k < i ==> block[k] == fifo[k]
    {
      block[i] := fifo[i];
      i := i + 1;
    }
    Silence(block, i);
  }

  // memset of the rest of a buffer.
  method Silence(block: array<int16>, at: nat)
    requires at <= block.Length
    modifies block
    ensures forall i :: 0 <= i < block.Length ==> block[i] == if i < at then old(block[i]) else 0
  {
    for i := at to block.Length
      invariant forall k :: 0 <= k < block.Length ==> block[k] == if at <= k < i then 0 else old(block[k])
    {
      block[i] := 0;
    }
  }
}
