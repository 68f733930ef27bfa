/**
 The streams of `audio_task.c`: four slots, each with two frame buffers and a codec that are allocated one by
 one. An allocator with a ledger of what is live shows what is leaked; freeing requires what is freed to be live,
 so that nothing is freed twice.
 */
module StreamSlots {
  import opened Words

  const MAX_STREAMS := 4
  const MAX_PCM_SAMPLES := 960

  datatype Config = Config(sampleRate: uint32, channels: uint8, frameDuration: uint16, octets: uint16)

  // How many frames wait in the two buffers of a stream.
  datatype Queued = Queued(pcm: nat, lc3: nat)

  const EMPTY := Queued(0, 0)

  // `since` is the time of the last start.
  datatype Slot = Slot(
    configured: bool, started: bool, active: bool,
    pcm: Option<nat>, lc3: Option<nat>, codec: Option<nat>, config: Config,
    sequence: uint16, queued: Queued, since: uint32)

  datatype Code =
    Fine | InvalidParam | NotInitialized | AlreadyInitialized | NoResources | InvalidState | TaskCreateFailed

  const BLANK := Slot(false, false, false, None, None, None, Config(0, 0, 0, 0), 0, EMPTY, 0)

  predicate ValidConfig(c: Config)
  {
    && 8000 <= c.sampleRate <= 48000
    && 1 <= c.channels <= 2
    && (c.frameDuration == 7500 || c.frameDuration == 10000)
  }

  // Millionths of samples in a frame.
  lemma ProductBounds(rate: nat, duration: nat)
    requires 8000 <= rate <= 48000 && (duration == 7500 || duration == 10000)
    ensures 60 * 1000000 <= rate * duration <= 480 * 1000000
  {
    if duration == 7500 {
      assert rate * duration == rate * 7500;
    } else {
      assert rate * duration == rate * 10000;
    }
  }

  lemma WholeSamples(p: nat, channels: nat)
    requires 60 * 1000000 <= p <= 480 * 1000000 && 1 <= channels <= 2
    ensures var n := Wrap16(Wrap32(p) / 1000000);
      60 <= n && n * channels <= MAX_PCM_SAMPLES && n * 1000000 <= p < (n + 1) * 1000000
  {
    var n := p / 1000000;
    assert Wrap32(p) == p && 60 <= n <= 480;
    assert Wrap16(n) == n;
    if channels == 1 {
      assert n * channels == n;
    } else {
      assert n * channels == n + n;
    }
  }

  /** calculate_samples_per_frame: for the configurations that streams can have, no multiplication overflows and
      a frame of all channels fits the PCM work buffers. */
  function SamplesPerFrame(c: Config): (n: uint16)
    ensures ValidConfig(c) ==> 60 <= n && n * c.channels <= MAX_PCM_SAMPLES
    ensures ValidConfig(c) ==> n * 1000000 <= c.sampleRate * c.frameDuration < (n + 1) * 1000000
  {
    if ValidConfig(c) then
      ProductBounds(c.sampleRate, c.frameDuration);
      WholeSamples(c.sampleRate * c.frameDuration, c.channels);
      Wrap16(Wrap32(c.sampleRate * c.frameDuration) / 1000000)
    else Wrap16(Wrap32(c.sampleRate * c.frameDuration) / 1000000)
  }

  // The memory: what is allocated, and the next name that the allocator gives.
  datatype Store = Store(live: set<nat>, next: nat)

  function Take(m: Store, ok: bool): (Store, Option<nat>)
  {
    if ok then (Store(m.live + {m.next}, m.next + 1), Some(m.next)) else (m, None)
  }

  function Drop(m: Store, h: Option<nat>): Store
  {
    if h.Some? then m.(live := m.live - {h.value}) else m
  }

  class Heap {
    var next: nat
    ghost var live: set<nat>

    ghost function View(): Store
      reads this
    {
      Store(live, next)
    }

    constructor ()
      ensures View() == Store({}, 0)
    {
      next := 0;
      live := {};
    }

    // An allocation, which may fail.
    method Alloc(ok: bool) returns (h: Option<nat>)
      modifies this
      ensures (View(), h) == Take(old(View()), ok)
    {
      if !ok {
        return None;
      }
      h := Some(next);
      live := live + {next};
      next := next + 1;
    }

    method Free(h: nat)
      requires h in live
      modifies this
      ensures View() == Drop(old(View()), Some(h))
    {
      live := live - {h};
    }
  }

  ghost function Name(h: Option<nat>): set<nat> { if h.Some? then {h.value} else {} }

  ghost function Handles(t: Slot): set<nat> { Name(t.pcm) + Name(t.lc3) + Name(t.codec) }

  // A configured stream has its three resources, any other has none; an active stream is a started one.
  ghost predicate GoodSlot(t: Slot)
  {
    && (t.active <==> t.started)
    && (t.active ==> t.configured)
    && (if t.configured
        then ValidConfig(t.config) && t.pcm.Some? && t.lc3.Some? && t.codec.Some? && |Handles(t)| == 3
        else t.pcm.None? && t.lc3.None? && t.codec.None?)
  }

  // audio_task_create_stream in its slot: the outcome of each allocation is given.
  function Build(t: Slot, m: Store, config: Config, pcmOk: bool, lc3Ok: bool, codecOk: bool): (Slot, Store, bool)
  {
    var blank := Slot(false, false, false, t.pcm, t.lc3, t.codec, config, 0, EMPTY, 0);
    var (m1, pcm) := Take(m, pcmOk);
    if pcm.None? then (blank.(pcm := None), m1, false)
    else
      var (m2, lc3) := Take(m1, lc3Ok);
      if lc3.None? then (blank.(pcm := None, lc3 := None), Drop(m2, pcm), false)
      else
        var (m3, codec) := Take(m2, codecOk);
        if codec.None? then (blank.(pcm := None, lc3 := None, codec := None), Drop(Drop(m3, pcm), lc3), false)
        else (Slot(true, false, false, pcm, lc3, codec, config, 0, EMPTY, 0), m3, true)
  }

  // audio_task_destroy_stream in its slot.
  function Wipe(t: Slot, m: Store): (Slot, Store)
  {
    (t.(configured := false, started := false, active := false, pcm := None, lc3 := None, codec := None),
     Drop(Drop(Drop(m, t.pcm), t.lc3), t.codec))
  }

  // Every name below the next one was given out.
  ghost predicate Below(hs: set<nat>, n: nat) { forall h :: h in hs ==> h < n }

  // A slot set up for a stream that has not run.
  predicate Fresh(t: Slot, config: Config)
  {
    !t.active && t.config == config && t.sequence == 0 && t.queued == EMPTY && t.since == 0
  }

  lemma ThreeNames(n: nat)
    ensures |{n, n + 1, n + 2}| == 3
  {
  }

  lemma BuildWhole(t: Slot, m: Store, config: Config)
    requires ValidConfig(config)
    ensures var (u, after, ok) := Build(t, m, config, true, true, true);
      && ok && u.configured && GoodSlot(u) && Fresh(u, config)
      && Handles(u) == {m.next, m.next + 1, m.next + 2}
      && after.live == m.live + Handles(u) && after.next == m.next + 3
  {
    hide ValidConfig;
    ThreeNames(m.next);
    var u := Build(t, m, config, true, true, true).0;
    assert Handles(u) == {m.next, m.next + 1, m.next + 2};
  }

  lemma BuildFails(t: Slot, m: Store, config: Config, pcmOk: bool, lc3Ok: bool, codecOk: bool)
    requires GoodSlot(t) && !t.configured && Below(m.live, m.next) && !(pcmOk && lc3Ok && codecOk)
    ensures var (u, after, ok) := Build(t, m, config, pcmOk, lc3Ok, codecOk);
      && !ok && !u.configured && GoodSlot(u) && Fresh(u, config)
      && after.live == m.live && m.next <= after.next && Handles(u) == {}
  {
    hide ValidConfig;
    assert m.next !in m.live && m.next + 1 !in m.live;
  }

  lemma BuildGood(t: Slot, m: Store, config: Config, pcmOk: bool, lc3Ok: bool, codecOk: bool)
    requires GoodSlot(t) && !t.configured && ValidConfig(config) && Below(m.live, m.next)
    ensures var (u, after, ok) := Build(t, m, config, pcmOk, lc3Ok, codecOk);
      && GoodSlot(u) && u.configured == ok && Fresh(u, config)
      && (ok <==> pcmOk && lc3Ok && codecOk)
      && after.live == m.live + Handles(u)
      && (forall h :: h in Handles(u) ==> m.next <= h < after.next)
      && m.next <= after.next
  {
    hide GoodSlot, Handles, Build, ValidConfig, Fresh, Below;
    if pcmOk && lc3Ok && codecOk {
      BuildWhole(t, m, config);
    } else {
      BuildFails(t, m, config, pcmOk, lc3Ok, codecOk);
    }
  }

  lemma WipeGood(t: Slot, m: Store)
    ensures var (u, after) := Wipe(t, m);
      GoodSlot(u) && !u.configured && after.live == m.live - Handles(t) && after.next == m.next
  {
  }

  // All handles that the slots own.
  ghost function Owned(slots: seq<Slot>): set<nat>
  {
    set i, h | 0 <= i < |slots| && h in Handles(slots[i]) :: h
  }

  ghost predicate Apart(slots: seq<Slot>)
  {
    forall i, j :: 0 <= i < j < |slots| ==> Handles(slots[i]) !! Handles(slots[j])
  }

  // How many streams are configured.
  function Count(slots: seq<Slot>): nat
  {
    if slots == [] then 0
    else Count(slots[..|slots| - 1]) + if slots[|slots| - 1].configured then 1 else 0
  }

  lemma {:induction false} CountUpdate(slots: seq<Slot>, i: nat, t: Slot)
    requires i < |slots|
    ensures Count(slots[i := t]) + (if slots[i].configured then 1 else 0)
         == Count(slots) + (if t.configured then 1 else 0)
    ensures Count(slots) <= |slots| && (slots[i].configured ==> Count(slots) > 0)
    ensures !slots[i].configured ==> Count(slots) < |slots|
    decreases |slots|
  {
    var n := |slots| - 1;
    var rest := slots[i := t];
    assert rest[..n] == if i == n then slots[..n] else slots[..n][i := t];
    if i < n {
      CountUpdate(slots[..n], i, t);
    } else if n > 0 {
      CountUpdate(slots[..n], 0, slots[0]);
    }
  }

  // A slot gets handles that no other slot owns.
  lemma OwnedUpdate(slots: seq<Slot>, i: nat, t: Slot)
    requires i < |slots| && Apart(slots)
    requires forall h :: h in Handles(t) ==> h in Handles(slots[i]) || h !in Owned(slots)
    ensures Apart(slots[i := t])
    ensures Owned(slots[i := t]) == Owned(slots) - Handles(slots[i]) + Handles(t)
  {
    var after := slots[i := t];
    forall j | 0 <= j < |slots| && j != i ensures Handles(slots[j]) !! Handles(t) {
      assert forall h :: h in Handles(slots[j]) ==> h in Owned(slots);
    }
    forall h ensures h in Owned(after) <==> h in Owned(slots) - Handles(slots[i]) + Handles(t) {
      if h in Owned(after) {
        var j :| 0 <= j < |after| && h in Handles(after[j]);
        if j != i {
          assert h in Handles(slots[j]);
        }
      }
      if h in Owned(slots) - Handles(slots[i]) {
        var j :| 0 <= j < |slots| && h in Handles(slots[j]);
        assert h in Handles(after[j]);
      }
      if h in Handles(t) {
        assert h in Handles(after[i]);
      }
    }
  }

  // The audio task, its memory, and what was lost: handles that are live but that no slot owns.
  datatype State = State(initialized: bool, slots: seq<Slot>, count: uint8, store: Store, lost: set<nat>)

  datatype Event =
    | Init(mutexOk: bool, taskOk: bool)
    | Deinit
    | Create(config: Config, pcmOk: bool, lc3Ok: bool, codecOk: bool)
    | Destroy(id: uint8)
    | Start(id: uint8, now: uint32)
    | Stop(id: uint8)
    | Flow(id: uint8, queued: Queued, sequence: uint16)

  // The first free slot, or the number of slots.
  function FirstFree(slots: seq<Slot>): (at: nat)
    ensures at <= |slots| && (at < |slots| ==> !slots[at].configured)
    ensures forall i :: 0 <= i < at ==> slots[i].configured
  {
    if slots == [] then 0
    else
      var n := |slots| - 1;
      var at := FirstFree(slots[..n]);
      if at < n || !slots[n].configured then at else |slots|
  }

  predicate Known(s: State, id: nat) { id < |s.slots| && s.slots[id].configured }

  function DestroyAt(s: State, id: nat): State
    requires id < |s.slots|
  {
    var (t, store) := Wipe(s.slots[id], s.store);
    s.(slots := s.slots[id := t], store := store, count := Wrap8(s.count - 1))
  }

  // Only active streams are destroyed by audio_task_deinit.
  function DestroyActive(s: State, from: nat): State
    requires from <= |s.slots|
    decreases |s.slots| - from
  {
    if from == |s.slots| then s
    else DestroyActive(if s.slots[from].active then DestroyAt(s, from) else s, from + 1)
  }

  // A start empties both buffers, numbers frames from zero, and takes the time.
  function Started(t: Slot, now: uint32): Slot
  {
    t.(started := true, active := true, sequence := 0, queued := EMPTY, since := now)
  }

  // In Flow the other parts of the firmware have put frames into the buffers of a stream, or taken some.
  ghost function Step(s: State, e: Event): (State, Code)
  {
    match e
    case Init(mutexOk, taskOk) =>
      if s.initialized then (s, AlreadyInitialized)
      else
        (State(mutexOk && taskOk, [BLANK, BLANK, BLANK, BLANK], 0, s.store, s.lost + Owned(s.slots)),
         if !mutexOk then NoResources else if !taskOk then TaskCreateFailed else Fine)
    case Deinit =>
      if !s.initialized then (s, Fine) else (DestroyActive(s, 0).(initialized := false), Fine)
    case Create(config, pcmOk, lc3Ok, codecOk) =>
      if !s.initialized then (s, NotInitialized)
      else if !ValidConfig(config) then (s, InvalidParam)
      else
        var at := FirstFree(s.slots);
        if at == |s.slots| then (s, NoResources)
        else
          var (t, store, ok) := Build(s.slots[at], s.store, config, pcmOk, lc3Ok, codecOk);
          (s.(slots := s.slots[at := t], store := store, count := if ok then Wrap8(s.count + 1) else s.count),
           if ok then Fine else NoResources)
    case Destroy(id) =>
      if !s.initialized then (s, NotInitialized)
      else if !Known(s, id) then (s, InvalidParam)
      else (DestroyAt(s, id), Fine)
    case Start(id, now) =>
      if !s.initialized then (s, NotInitialized)
      else if !Known(s, id) then (s, InvalidParam)
      else if s.slots[id].active then (s, Fine)
      else (s.(slots := s.slots[id := Started(s.slots[id], now)]), Fine)
    case Stop(id) =>
      if !s.initialized then (s, NotInitialized)
      else if !Known(s, id) then (s, InvalidParam)
      else if !s.slots[id].active then (s, Fine)
      else (s.(slots := s.slots[id := s.slots[id].(started := false, active := false)]), Fine)
    case Flow(id, queued, sequence) =>
      if !Known(s, id) then (s, InvalidParam)
      else (s.(slots := s.slots[id := s.slots[id].(queued := queued, sequence := sequence)]), Fine)
  }

  ghost predicate Good(s: State)
  {
    && |s.slots| == MAX_STREAMS
    && (forall i :: 0 <= i < MAX_STREAMS ==> GoodSlot(s.slots[i]))
    && Apart(s.slots) && Owned(s.slots) !! s.lost
    && s.store.live == Owned(s.slots) + s.lost && Below(s.store.live, s.store.next)
    && s.count == Count(s.slots)
  }

  lemma OwnedMember(slots: seq<Slot>, i: nat)
    requires i < |slots|
    ensures Handles(slots[i]) <= Owned(slots)
  {
  }

  lemma CreateGood(s: State, config: Config, pcmOk: bool, lc3Ok: bool, codecOk: bool)
    requires Good(s) && s.initialized
    ensures var (after, code) := Step(s, Create(config, pcmOk, lc3Ok, codecOk));
      && Good(after) && after.lost == s.lost
      && code == (if !(8000 <= config.sampleRate <= 48000 && 1 <= config.channels <= 2
                       && (config.frameDuration == 7500 || config.frameDuration == 10000)) then InvalidParam
                  else if s.count < MAX_STREAMS && pcmOk && lc3Ok && codecOk then Fine
                  else NoResources)
      && (code != Fine ==> after.store.live == s.store.live && after.count == s.count)
      && (code == Fine ==> after.count == s.count + 1)
      && var at := FirstFree(s.slots);
         && (forall i :: 0 <= i < MAX_STREAMS && i != at ==> after.slots[i] == s.slots[i])
         && (code == Fine ==>
               at < MAX_STREAMS && Known(after, at) && Fresh(after.slots[at], config))
  {
    hide GoodSlot, Handles, Owned, Apart, Build, Count;
    var at := FirstFree(s.slots);
    if at < MAX_STREAMS && ValidConfig(config) {
      var t := Build(s.slots[at], s.store, config, pcmOk, lc3Ok, codecOk).0;
      BuildGood(s.slots[at], s.store, config, pcmOk, lc3Ok, codecOk);
      NothingOwned(s.slots[at]);
      if !t.configured {
        NothingOwned(t);
      }
      OwnedUpdate(s.slots, at, t);
      CountUpdate(s.slots, at, t);
    } else if at == MAX_STREAMS {
      CountAll(s.slots);
    }
  }

  lemma NothingOwned(t: Slot)
    requires GoodSlot(t) && !t.configured
    ensures Handles(t) == {}
  {
  }

  lemma {:induction false} CountAll(slots: seq<Slot>)
    requires forall i :: 0 <= i < |slots| ==> slots[i].configured
    ensures Count(slots) == |slots|
    decreases |slots|
  {
    if slots != [] {
      CountAll(slots[..|slots| - 1]);
    }
  }

  lemma DestroyGood(s: State, id: nat)
    requires Good(s) && Known(s, id)
    ensures var after := DestroyAt(s, id);
      && Good(after) && after.lost == s.lost && after.count == s.count - 1
      && after.store.live == s.store.live - Handles(s.slots[id])
  {
    hide GoodSlot, Handles, Owned, Apart, Wipe, Count;
    var t := Wipe(s.slots[id], s.store).0;
    WipeGood(s.slots[id], s.store);
    NothingOwned(t);
    OwnedMember(s.slots, id);
    OwnedUpdate(s.slots, id, t);
    CountUpdate(s.slots, id, t);
  }

  // Starting and stopping change neither what a slot owns nor whether it is configured.
  lemma FlagsGood(s: State, id: nat, t: Slot)
    requires Good(s) && Known(s, id) && GoodSlot(t) && t.configured && Handles(t) == Handles(s.slots[id])
    ensures Good(s.(slots := s.slots[id := t]))
  {
    hide GoodSlot, Handles, Owned, Apart, Count;
    OwnedMember(s.slots, id);
    OwnedUpdate(s.slots, id, t);
    CountUpdate(s.slots, id, t);
  }

  lemma {:induction false} DestroyActiveGood(s: State, from: nat)
    requires Good(s) && from <= |s.slots| == MAX_STREAMS
    requires forall i :: 0 <= i < from ==> !s.slots[i].active
    ensures var after := DestroyActive(s, from);
      && Good(after) && after.lost == s.lost && after.initialized == s.initialized && |after.slots| == MAX_STREAMS
      && forall i :: 0 <= i < MAX_STREAMS ==>
           (after.slots[i].configured <==> s.slots[i].configured && !s.slots[i].active) && !after.slots[i].active
    decreases MAX_STREAMS - from
  {
    hide Good, DestroyAt;
    if from < MAX_STREAMS {
      if s.slots[from].active {
        ActiveIsKnown(s, from);
        DestroyGood(s, from);
        DestroyedSlots(s, from);
        DestroyActiveGood(DestroyAt(s, from), from + 1);
      } else {
        DestroyActiveGood(s, from + 1);
      }
    }
  }

  lemma ActiveIsKnown(s: State, id: nat)
    requires Good(s) && id < |s.slots| && s.slots[id].active
    ensures Known(s, id)
  {
    SlotIsGood(s, id);
  }

  lemma DestroyedSlots(s: State, id: nat)
    requires Good(s) && id < |s.slots|
    ensures var after := DestroyAt(s, id);
      && |after.slots| == |s.slots| && after.initialized == s.initialized
      && !after.slots[id].configured && !after.slots[id].active
      && forall i :: 0 <= i < |s.slots| && i != id ==> after.slots[i] == s.slots[i]
  {
  }

  lemma BlankOwnsNothing()
    ensures var slots := [BLANK, BLANK, BLANK, BLANK]; Owned(slots) == {} && Apart(slots) && Count(slots) == 0
    ensures GoodSlot(BLANK)
  {
    var slots := [BLANK, BLANK, BLANK, BLANK];
    assert forall i :: 0 <= i < 4 ==> Handles(slots[i]) == {};
    CountNone(slots);
  }

  lemma {:induction false} CountNone(slots: seq<Slot>)
    requires forall i :: 0 <= i < |slots| ==> !slots[i].configured
    ensures Count(slots) == 0
    decreases |slots|
  {
    if slots != [] {
      CountNone(slots[..|slots| - 1]);
    }
  }

  /** Every call keeps: a stream is configured exactly if it owns its three resources, active exactly if started,
      and then configured; no two streams share a resource; the counter counts the configured streams; what is
      live is what the streams own and what was lost. Only an initialization can lose something: what
      the streams still own then. */
  lemma StepGood(s: State, e: Event)
    requires Good(s)
    ensures var after := Step(s, e).0;
      Good(after) && after.lost == if e.Init? && !s.initialized then s.lost + Owned(s.slots) else s.lost
  {
    hide Good, Owned, GoodSlot, Handles, DestroyActive, DestroyAt, Build, BLANK, Started, ValidConfig;
    match e
    case Init(mutexOk, taskOk) => InitGood(s, mutexOk, taskOk);
    case Deinit => DeinitGood(s);
    case Create(config, pcmOk, lc3Ok, codecOk) =>
      if s.initialized {
        CreateGood(s, config, pcmOk, lc3Ok, codecOk);
      }
    case Destroy(id) =>
      if Known(s, id) {
        DestroyGood(s, id);
      }
    case _ => SlotEventGood(s, e);
  }

  lemma InitGood(s: State, mutexOk: bool, taskOk: bool)
    requires Good(s)
    ensures var after := Step(s, Init(mutexOk, taskOk)).0;
      Good(after) && after.lost == if s.initialized then s.lost else s.lost + Owned(s.slots)
  {
    hide Owned, Apart, Count, GoodSlot;
    BlankOwnsNothing();
  }

  lemma DeinitGood(s: State)
    requires Good(s)
    ensures Good(Step(s, Deinit).0) && Step(s, Deinit).0.lost == s.lost
  {
    if s.initialized {
      DestroyActiveGood(s, 0);
      Uninitialized(DestroyActive(s, 0));
    }
  }

  lemma Uninitialized(s: State)
    requires Good(s)
    ensures Good(s.(initialized := false))
  {
    hide GoodSlot, Owned, Apart, Count;
  }

  // Starts, stops and the flow of frames.
  lemma SlotEventGood(s: State, e: Event)
    requires Good(s) && (e.Start? || e.Stop? || e.Flow?)
    ensures Good(Step(s, e).0) && Step(s, e).0.lost == s.lost
  {
    hide Good, Handles, Apart, Owned, Count, ValidConfig;
    var after := Step(s, e).0;
    if after != s {
      var t := after.slots[e.id];
      SlotIsGood(s, e.id);
      SameHandles(s.slots[e.id], t);
      FlagsGood(s, e.id, t);
    }
  }

  lemma SlotIsGood(s: State, id: nat)
    requires Good(s) && id < |s.slots|
    ensures GoodSlot(s.slots[id])
  {
    hide GoodSlot;
  }

  lemma SameHandles(t: Slot, u: Slot)
    requires t.pcm == u.pcm && t.lc3 == u.lc3 && t.codec == u.codec
    ensures Handles(t) == Handles(u)
  {
  }

  /** What the other calls answer: nothing works before the initialization, and after it a call for a stream that is not
      configured is refused; a call that is refused changes nothing, nor does starting an active stream or stopping one
      that is not. */
  lemma CallCodes(s: State, e: Event)
    requires Good(s) && (e.Destroy? || e.Start? || e.Stop?)
    ensures var (after, code) := Step(s, e);
      && code == (if !s.initialized then NotInitialized
                  else if e.id < 4 && s.slots[e.id].configured then Fine
                  else InvalidParam)
      && (code != Fine ==> after == s)
      && (code == Fine && e.Start? && s.slots[e.id].active ==> after == s)
      && (code == Fine && e.Stop? && !s.slots[e.id].active ==> after == s)
  {
    hide Owned, Apart, Count, GoodSlot, Drop;
  }

  /** An initialization works exactly once until the task is closed down, if the mutex and the task can be created;
      whether it works or not it leaves all streams blank. */
  lemma InitCodes(s: State, mutexOk: bool, taskOk: bool)
    requires Good(s)
    ensures var (after, code) := Step(s, Init(mutexOk, taskOk));
      && code == (if s.initialized then AlreadyInitialized
                  else if !mutexOk then NoResources
                  else if !taskOk then TaskCreateFailed
                  else Fine)
      && (after.initialized <==> s.initialized || (mutexOk && taskOk))
      && (if s.initialized then after == s
          else after.count == 0 && forall i :: 0 <= i < 4 ==>
            !after.slots[i].configured && !after.slots[i].active && after.slots[i].pcm == None
            && after.slots[i].lc3 == None && after.slots[i].codec == None)
    ensures var (after, code) := Step(s, Deinit); code == Fine && !after.initialized
  {
    hide Owned, Apart, Count, GoodSlot, DestroyActive;
  }

  /** Starting and stopping a stream leaves it as it was, but for its sequence number, the time, and the frames that
      waited in its buffers, which are gone. */
  lemma StopUndoesStart(s: State, id: uint8, now: uint32)
    requires Good(s) && s.initialized && Known(s, id) && !s.slots[id].active
    ensures var started := Step(s, Start(id, now)).0;
      && Known(started, id) && started.slots[id].active && started.slots[id].queued == EMPTY
      && Handles(started.slots[id]) == Handles(s.slots[id])
      && Step(started, Stop(id)) ==
           (s.(slots := s.slots[id := s.slots[id].(sequence := 0, queued := EMPTY, since := now)]), Fine)
  {
    hide Owned, Apart, Count;
    var started := Step(s, Start(id, now)).0;
    SameHandles(s.slots[id], started.slots[id]);
    assert Step(started, Stop(id)).0.slots ==
           s.slots[id := s.slots[id].(sequence := 0, queued := EMPTY, since := now)];
  }

  const BOOT := State(false, [BLANK, BLANK, BLANK, BLANK], 0, Store({}, 0), {})

  ghost function Run(events: seq<Event>): State
  {
    if events == [] then BOOT else Step(Run(events[..|events| - 1]), events[|events| - 1]).0
  }

  lemma {:induction false} RunGood(events: seq<Event>)
    ensures Good(Run(events))
    decreases |events|
  {
    if events == [] {
      BlankOwnsNothing();
    } else {
      RunGood(events[..|events| - 1]);
      StepGood(Run(events[..|events| - 1]), events[|events| - 1]);
    }
  }

  lemma OwnsNothing(s: State)
    requires Good(s)
    ensures Owned(s.slots) == {} <==> forall i :: 0 <= i < MAX_STREAMS ==> !s.slots[i].configured
  {
    if Owned(s.slots) == {} {
      forall i | 0 <= i < MAX_STREAMS ensures !s.slots[i].configured {
        OwnedMember(s.slots, i);
      }
    }
  }

  /** Closing the task down and initializing it again frees everything, exactly if no stream was configured
      without being active: streams that are stopped are forgotten with what they own. */
  lemma RestartLosesStopped(s: State, mutexOk: bool, taskOk: bool)
    requires Good(s) && s.initialized && s.lost == {}
    ensures var after := Step(Step(s, Deinit).0, Init(mutexOk, taskOk)).0;
      after.store.live == {} <==> forall i :: 0 <= i < MAX_STREAMS ==> (s.slots[i].configured ==> s.slots[i].active)
  {
    hide Owned, Apart, Count;
    var down := Step(s, Deinit).0;
    DestroyActiveGood(s, 0);
    StepGood(s, Deinit);
    StepGood(down, Init(mutexOk, taskOk));
    BlankOwnsNothing();
    OwnsNothing(down);
  }

  /** Destroying a stream undoes its creation: the same memory is live, and as many streams are configured; all
      other streams are as before. */
  lemma DestroyUndoesCreate(s: State, config: Config)
    requires Good(s) && s.initialized && ValidConfig(config) && s.count < MAX_STREAMS
    ensures var id := FirstFree(s.slots);
      && id < MAX_STREAMS
      && var created := Step(s, Create(config, true, true, true)).0;
      && Known(created, id)
      && var after := Step(created, Destroy(id)).0;
      && after.store.live == s.store.live && after.count == s.count
      && forall i :: 0 <= i < MAX_STREAMS && i != id ==> after.slots[i] == s.slots[i]
  {
    hide GoodSlot, Handles, Owned, Apart, Count;
    var id := FirstFree(s.slots);
    if id == MAX_STREAMS {
      CountAll(s.slots);
    }
    BuildGood(s.slots[id], s.store, config, true, true, true);
    CreateGood(s, config, true, true, true);
    DestroyGood(Step(s, Create(config, true, true, true)).0, id);
  }

  class AudioTask {
    const slots: array<Slot>
    const heap: Heap
    var initialized: bool
    var count: uint8
    ghost var lost: set<nat>

    ghost function View(): State
      reads this, slots, heap
    {
      State(initialized, slots[..], count, heap.View(), lost)
    }

    ghost predicate Valid()
      reads this, slots, heap
    {
      slots.Length == MAX_STREAMS && Good(View())
    }

    constructor ()
      ensures Valid() && View() == BOOT && fresh(slots) && fresh(heap)
    {
      slots := new Slot[MAX_STREAMS](_ => BLANK);
      heap := new Heap();
      initialized, count, lost := false, 0, {};
      new;
      BlankOwnsNothing();
      assert slots[..] == [BLANK, BLANK, BLANK, BLANK];
    }

    // find_free_stream_slot
    method FindFree() returns (at: nat)
      requires slots.Length == MAX_STREAMS
      ensures at == FirstFree(slots[..])
    {
      at := 0;
      while at < MAX_STREAMS
        invariant at <= MAX_STREAMS && forall i :: 0 <= i < at ==> slots[i].configured
      {
        if !slots[at].configured {
          break;
        }
        at := at + 1;
      }
    }

    /** audio_task_init: `mutexOk` and `taskOk` say whether the mutex and the task could be created. */
    method InitTask(mutexOk: bool, taskOk: bool) returns (code: Code)
      requires Valid()
      modifies this, slots
      ensures Valid() && (View(), code) == Step(old(View()), Init(mutexOk, taskOk))
    {
      hide Owned, Good;
      StepGood(View(), Init(mutexOk, taskOk));
      if initialized {
        return AlreadyInitialized;
      }
      lost := lost + Owned(slots[..]);
      count := 0;
      for i := 0 to MAX_STREAMS
        invariant forall j :: 0 <= j < i ==> slots[j] == BLANK
        invariant !initialized && count == 0 && lost == old(lost) + Owned(old(slots[..]))
      {
        slots[i] := BLANK;
      }
      assert slots[..] == [BLANK, BLANK, BLANK, BLANK];
      if !mutexOk {
        return NoResources;
      }
      if !taskOk {
        return TaskCreateFailed;
      }
      initialized := true;
      return Fine;
    }

    // The allocations of audio_task_create_stream, once a slot is found.
    method Acquire(id: nat, config: Config, pcmOk: bool, lc3Ok: bool, codecOk: bool) returns (ok: bool)
      requires id < slots.Length
      modifies slots, heap
      ensures (slots[id], heap.View(), ok) == Build(old(slots[id]), old(heap.View()), config, pcmOk, lc3Ok, codecOk)
      ensures slots[..] == old(slots[..])[id := slots[id]]
    {
      slots[id] := slots[id].(configured := false, started := false, active := false, config := config,
                              sequence := 0, queued := EMPTY, since := 0);
      var pcm := heap.Alloc(pcmOk);
      slots[id] := slots[id].(pcm := pcm);
      if pcm.None? {
        return false;
      }
      var lc3 := heap.Alloc(lc3Ok);
      slots[id] := slots[id].(lc3 := lc3);
      if lc3.None? {
        heap.Free(pcm.value);
        slots[id] := slots[id].(pcm := None);
        return false;
      }
      var codec := heap.Alloc(codecOk);
      slots[id] := slots[id].(codec := codec);
      if codec.None? {
        heap.Free(pcm.value);
        heap.Free(lc3.value);
        slots[id] := slots[id].(pcm := None, lc3 := None);
        return false;
      }
      slots[id] := slots[id].(configured := true);
      return true;
    }

    /** audio_task_create_stream: the three flags say which allocations succeed. */
    method CreateStream(config: Config, pcmOk: bool, lc3Ok: bool, codecOk: bool) returns (code: Code, id: nat)
      requires Valid()
      modifies this, slots, heap
      ensures Valid() && (View(), code) == Step(old(View()), Create(config, pcmOk, lc3Ok, codecOk))
      ensures code == Fine ==> id == FirstFree(old(slots[..])) < MAX_STREAMS
    {
      hide Owned, Good, Apart, Count, Build;
      StepGood(View(), Create(config, pcmOk, lc3Ok, codecOk));
      id := MAX_STREAMS;
      if !initialized {
        return NotInitialized, id;
      }
      if !ValidConfig(config) {
        return InvalidParam, id;
      }
      id := FindFree();
      if id == MAX_STREAMS {
        return NoResources, id;
      }
      var ok := Acquire(id, config, pcmOk, lc3Ok, codecOk);
      if !ok {
        return NoResources, id;
      }
      count := Wrap8(count + 1);
      return Fine, id;
    }

    /** audio_task_stop_stream */
    method StopStream(id: uint8) returns (code: Code)
      requires Valid()
      modifies slots
      ensures Valid() && (View(), code) == Step(old(View()), Stop(id))
    {
      hide Owned, Good, Apart, Count;
      StepGood(View(), Stop(id));
      if !initialized {
        return NotInitialized;
      }
      if id >= MAX_STREAMS || !slots[id].configured {
        return InvalidParam;
      }
      if slots[id].active {
        slots[id] := slots[id].(started := false, active := false);
      }
      return Fine;
    }

    /** audio_task_start_stream: resetting the two buffers needs them to be live, and leaves them empty. */
    method StartStream(id: uint8, now: uint32) returns (code: Code)
      requires Valid()
      modifies slots
      ensures Valid() && (View(), code) == Step(old(View()), Start(id, now))
      ensures code == Fine ==>
        slots[id].pcm.Some? && slots[id].lc3.Some? && {slots[id].pcm.value, slots[id].lc3.value} <= heap.live
    {
      hide Owned, Apart, Count;
      StepGood(View(), Start(id, now));
      if !initialized {
        return NotInitialized;
      }
      if id >= MAX_STREAMS || !slots[id].configured {
        return InvalidParam;
      }
      OwnedMember(slots[..], id);
      ghost var before := slots[..];
      if !slots[id].active {
        slots[id] := slots[id].(queued := EMPTY);
        slots[id] := slots[id].(sequence := 0, since := now);
        slots[id] := slots[id].(started := true, active := true);
        assert slots[..] == before[id := Started(before[id], now)];
      }
      return Fine;
    }

    /** audio_task_destroy_stream: everything that it frees is live. */
    method DestroyStream(id: uint8) returns (code: Code)
      requires Valid()
      modifies this, slots, heap
      ensures Valid() && (View(), code) == Step(old(View()), Destroy(id))
    {
      hide Owned, Apart, Count;
      StepGood(View(), Destroy(id));
      if !initialized {
        return NotInitialized;
      }
      if id >= MAX_STREAMS || !slots[id].configured {
        return InvalidParam;
      }
      ghost var before := View();
      OwnedMember(slots[..], id);
      ThreeHandles(slots[id]);
      if slots[id].active {
        var stopped := StopStream(id);
      }
      heap.Free(slots[id].pcm.value);
      heap.Free(slots[id].lc3.value);
      heap.Free(slots[id].codec.value);
      slots[id] := slots[id].(configured := false, started := false, active := false,
                              pcm := None, lc3 := None, codec := None);
      count := Wrap8(count - 1);
      assert View() == Step(before, Destroy(id)).0;
      return Fine;
    }

    // What audio_task_deinit does to an active stream.
    method StopAndDestroy(id: uint8)
      requires Valid() && initialized && id < MAX_STREAMS && slots[id].active
      modifies this, slots, heap
      ensures Valid() && View() == DestroyAt(old(View()), id)
    {
      hide Good, DestroyAt;
      ActiveIsKnown(View(), id);
      StoppingFirst(View(), id);
      var stopped := StopStream(id);
      var destroyed := DestroyStream(id);
    }

    /** audio_task_deinit: streams that are not active are passed over. */
    method DeinitTask()
      requires Valid()
      modifies this, slots, heap
      ensures Valid() && View() == Step(old(View()), Deinit).0
    {
      hide Good, DestroyAt;
      StepGood(View(), Deinit);
      if !initialized {
        return;
      }
      ghost var before := View();
      for i := 0 to MAX_STREAMS
        invariant Valid() && initialized && DestroyActive(before, 0) == DestroyActive(View(), i)
      {
        DestroyActiveStep(View(), i);
        if slots[i].active {
          assert View().slots[i].active;
          StopAndDestroy(i);
        }
      }
      initialized := false;
    }
  }

  lemma DestroyActiveStep(s: State, i: nat)
    requires i < |s.slots|
    ensures DestroyActive(s, i) == DestroyActive(if s.slots[i].active then DestroyAt(s, i) else s, i + 1)
    ensures DestroyAt(s, i).initialized == s.initialized && |DestroyAt(s, i).slots| == |s.slots|
    ensures i + 1 == |s.slots| ==> DestroyActive(s, i) == if s.slots[i].active then DestroyAt(s, i) else s
  {
  }

  lemma ThreeHandles(t: Slot)
    requires GoodSlot(t) && t.configured
    ensures t.pcm.value != t.lc3.value && t.lc3.value != t.codec.value && t.pcm.value != t.codec.value
  {
    var p, l, c := t.pcm.value, t.lc3.value, t.codec.value;
    assert Handles(t) == {p, l, c};
    assert |{p, l}| <= 2 && |{p, c}| <= 2 && |{l, c}| <= 2;
    assert p == l ==> {p, l, c} == {p, c};
    assert p == c ==> {p, l, c} == {p, l};
    assert l == c ==> {p, l, c} == {p, l};
  }

  // Stopping a stream before destroying it makes no difference.
  lemma StoppingFirst(s: State, id: uint8)
    requires Known(s, id)
    ensures DestroyAt(Step(s, Stop(id)).0, id) == DestroyAt(s, id)
  {
    hide Owned, Drop, DestroyActive, FirstFree;
    var t := Step(s, Stop(id)).0;
    assert t.slots[id := Wipe(t.slots[id], t.store).0] == s.slots[id := Wipe(s.slots[id], s.store).0];
  }
}
