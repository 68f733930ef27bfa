/**
 The tables of isochronous groups in `hci_isoc.c`: two connected groups (CIG) with their streams, and two
 broadcast groups (BIG) that are created as source or synchronized to as sink. Calls and events are atomic.
 */
module IsocGroups {
  import opened Words

  const MAX_CIG := 2
  const MAX_CIS := 4
  const MAX_BIG := 2
  const MAX_BIS := 4
  const INVALID_HANDLE: uint16 := 0xFFFF

  datatype CisState = CisIdle | Configured | Connecting | Established | Disconnecting

  // A stream: the handle it got when its group was set up, and the one in its information, which a disconnection
  // forgets.
  datatype Cis = Cis(id: uint8, original: uint16, handle: uint16, state: CisState)

  datatype Cig = Cig(inUse: bool, id: uint8, cis: seq<Cis>)

  datatype BigState = BigIdle | Creating | Active | Terminating

  datatype Big = Big(inUse: bool, handle: uint8, isSource: bool, state: BigState)

  // How a command ends: it cannot be sent, gets no answer, is refused by the controller, or succeeds.
  datatype Answer = NotSent | NoAnswer | Refused | Granted

  datatype Code = Fine | InvalidParam | NoResources | InvalidState | Exists | NotFound | CommandFailed | TimedOut

  function CodeOf(a: Answer): Code
  {
    match a
    case NotSent => CommandFailed
    case NoAnswer => TimedOut
    case Refused => CommandFailed
    case Granted => Fine
  }

  // Connected groups: the slots and the counter.
  datatype Cigs = Cigs(slots: seq<Cig>, active: uint8)

  datatype CigEvent =
    | SetParams(id: uint8, cisIds: seq<uint8>, answer: Answer)
    | Remove(id: uint8, answer: Answer)
    | CreateCis(id: uint8, handles: seq<uint16>, sent: bool)
    | CisEstablished(handle: uint16, status: uint8)
    | DisconnectCis(handle: uint16, sent: bool)
    | CisDisconnected(handle: uint16)
    | CisDisconnectedByStack(handle: uint16)

  // find_cig: the first slot in use with the id, or the number of slots.
  function FindCig(slots: seq<Cig>, id: uint8): (at: nat)
    ensures at <= |slots| && (at < |slots| ==> slots[at].inUse && slots[at].id == id)
    ensures forall i :: 0 <= i < at ==> !(slots[i].inUse && slots[i].id == id)
  {
    if slots == [] then 0
    else
      var n := |slots| - 1;
      var at := FindCig(slots[..n], id);
      if at < n || (slots[n].inUse && slots[n].id == id) then at else |slots|
  }

  function FreeCig(slots: seq<Cig>): (at: nat)
    ensures at <= |slots| && (at < |slots| ==> !slots[at].inUse)
    ensures forall i :: 0 <= i < at ==> slots[i].inUse
  {
    if slots == [] then 0
    else
      var n := |slots| - 1;
      var at := FreeCig(slots[..n]);
      if at < n || !slots[n].inUse then at else |slots|
  }

  // The streams of a new group have placeholder handles.
  function NewCis(ids: seq<uint8>): seq<Cis>
    requires |ids| <= MAX_CIS
  {
    seq(|ids|, j requires 0 <= j < |ids| => Cis(ids[j], 0x0100 + j, 0x0100 + j, Configured))
  }

  predicate AnyEstablished(cs: seq<Cis>) { exists j :: 0 <= j < |cs| && cs[j].state == Established }

  // find_cis: the first stream with the handle, of the groups in use.
  function FindCis(cs: seq<Cis>, handle: uint16): (at: nat)
    ensures at <= |cs| && (at < |cs| ==> cs[at].handle == handle)
    ensures forall j :: 0 <= j < at ==> cs[j].handle != handle
  {
    if cs == [] then 0
    else
      var n := |cs| - 1;
      var at := FindCis(cs[..n], handle);
      if at < n || cs[n].handle == handle then at else |cs|
  }

  // The first stream that got the handle.
  function FindOriginal(cs: seq<Cis>, handle: uint16): (at: nat)
    ensures at <= |cs| && (at < |cs| ==> cs[at].original == handle)
    ensures forall j :: 0 <= j < at ==> cs[j].original != handle
  {
    if cs == [] then 0
    else
      var n := |cs| - 1;
      var at := FindOriginal(cs[..n], handle);
      if at < n || cs[n].original == handle then at else |cs|
  }

  // The streams to be created, marked one after the other.
  function Mark(cs: seq<Cis>, handle: uint16): seq<Cis>
  {
    var at := FindOriginal(cs, handle);
    if at < |cs| then cs[at := cs[at].(state := Connecting)] else cs
  }

  function MarkAll(cs: seq<Cis>, handles: seq<uint16>): seq<Cis>
  {
    if handles == [] then cs else Mark(MarkAll(cs, handles[..|handles| - 1]), handles[|handles| - 1])
  }

  predicate Has(g: Cig, handle: uint16) { g.inUse && FindCis(g.cis, handle) < |g.cis| }

  function Changed(c: Cis, state: CisState, forget: bool): Cis
  {
    c.(state := state, handle := if forget then INVALID_HANDLE else c.handle)
  }

  function ChangeCis(g: Cig, handle: uint16, state: CisState, forget: bool): Cig
    requires Has(g, handle)
  {
    var j := FindCis(g.cis, handle);
    g.(cis := g.cis[j := Changed(g.cis[j], state, forget)])
  }

  function CigStep(t: Cigs, e: CigEvent): (Cigs, Code)
    requires |t.slots| == MAX_CIG
  {
    match e
    case SetParams(id, cisIds, answer) =>
      if cisIds == [] || |cisIds| > MAX_CIS then (t, InvalidParam)
      else if FindCig(t.slots, id) < MAX_CIG then (t, Exists)
      else
        var at := FreeCig(t.slots);
        if at == MAX_CIG then (t, NoResources)
        else if answer != Granted then (t, CodeOf(answer))
        else (Cigs(t.slots[at := Cig(true, id, NewCis(cisIds))], Wrap8(t.active + 1)), Fine)
    case Remove(id, answer) =>
      var at := FindCig(t.slots, id);
      if at == MAX_CIG then (t, NotFound)
      else if AnyEstablished(t.slots[at].cis) then (t, InvalidState)
      else if answer != Granted then (t, CodeOf(answer))
      else (Cigs(t.slots[at := t.slots[at].(inUse := false)], Wrap8(t.active - 1)), Fine)
    case CreateCis(id, handles, sent) =>
      if handles == [] then (t, InvalidParam)
      else
        var at := FindCig(t.slots, id);
        if at == MAX_CIG then (t, NotFound)
        else
          (t.(slots := t.slots[at := t.slots[at].(cis := MarkAll(t.slots[at].cis, handles))]),
           if sent then Fine else CommandFailed)
    case CisEstablished(handle, status) =>
      if status != 0 then (t, CommandFailed) else ChangeFirst(t, handle, Established, false)
    case DisconnectCis(handle, sent) =>
      var (after, code) := ChangeFirst(t, handle, Disconnecting, false);
      (after, if code == Fine && !sent then CommandFailed else code)
    case CisDisconnected(handle) => ChangeFirst(t, handle, CisIdle, true)
    case CisDisconnectedByStack(handle) => ChangeFirst(t, handle, CisIdle, false)
  }

  // A change of the stream that find_cis finds.
  function ChangeFirst(t: Cigs, handle: uint16, state: CisState, forget: bool): (Cigs, Code)
    requires |t.slots| == MAX_CIG
  {
    if Has(t.slots[0], handle) then
      (t.(slots := t.slots[0 := ChangeCis(t.slots[0], handle, state, forget)]), Fine)
    else if Has(t.slots[1], handle) then
      (t.(slots := t.slots[1 := ChangeCis(t.slots[1], handle, state, forget)]), Fine)
    else (t, NotFound)
  }

  function One(b: bool): nat { if b then 1 else 0 }

  // One to four streams, whose handles were given in order.
  ghost predicate GoodStreams(cs: seq<Cis>)
  {
    1 <= |cs| <= MAX_CIS && forall j :: 0 <= j < |cs| ==> cs[j].original == 0x0100 + j
  }

  // Ids in use are unique and the counter counts them; a group in use has good streams.
  ghost predicate GoodCigs(t: Cigs)
  {
    && |t.slots| == MAX_CIG
    && !(t.slots[0].inUse && t.slots[1].inUse && t.slots[0].id == t.slots[1].id)
    && t.active == One(t.slots[0].inUse) + One(t.slots[1].inUse)
    && forall i :: 0 <= i < MAX_CIG && t.slots[i].inUse ==> GoodStreams(t.slots[i].cis)
  }

  ghost function CigIds(t: Cigs): set<uint8>
  {
    set i | 0 <= i < |t.slots| && t.slots[i].inUse :: t.slots[i].id
  }

  lemma IdsOfTwo(t: Cigs)
    requires GoodCigs(t)
    ensures CigIds(t) == (if t.slots[0].inUse then {t.slots[0].id} else {})
                       + (if t.slots[1].inUse then {t.slots[1].id} else {})
    ensures |CigIds(t)| == t.active
  {
    assert CigIds(t) == (if t.slots[0].inUse then {t.slots[0].id} else {})
                      + (if t.slots[1].inUse then {t.slots[1].id} else {});
  }

  const NO_CIGS := Cigs([Cig(false, 0, []), Cig(false, 0, [])], 0)

  function CigRun(events: seq<CigEvent>): (t: Cigs)
    ensures |t.slots| == MAX_CIG
  {
    if events == [] then NO_CIGS else CigStep(CigRun(events[..|events| - 1]), events[|events| - 1]).0
  }

  lemma MarksOne(cs: seq<Cis>, handle: uint16)
    requires GoodStreams(cs)
    ensures var marked := Mark(cs, handle);
      && GoodStreams(marked) && |marked| == |cs|
      && forall j :: 0 <= j < |cs| ==>
           marked[j] == if cs[j].original == handle then cs[j].(state := Connecting) else cs[j]
  {
    hide FindOriginal;
  }

  /** The streams marked are exactly those whose handles were passed, wherever they stand; no other changes. */
  lemma {:induction false} MarksExactly(cs: seq<Cis>, handles: seq<uint16>)
    requires GoodStreams(cs)
    ensures var marked := MarkAll(cs, handles);
      && GoodStreams(marked) && |marked| == |cs|
      && forall j :: 0 <= j < |cs| ==>
           marked[j] == if cs[j].original in handles then cs[j].(state := Connecting) else cs[j]
    decreases |handles|
  {
    hide Mark, GoodStreams;
    if handles != [] {
      var n := |handles| - 1;
      MarksExactly(cs, handles[..n]);
      MarksOne(MarkAll(cs, handles[..n]), handles[n]);
      assert handles == handles[..n] + [handles[n]];
    }
  }

  lemma NewStreams(ids: seq<uint8>)
    requires 1 <= |ids| <= MAX_CIS
    ensures GoodStreams(NewCis(ids))
  {
  }

  lemma ChangeGood(t: Cigs, i: nat, handle: uint16, state: CisState, forget: bool)
    requires GoodCigs(t) && i < MAX_CIG && Has(t.slots[i], handle)
    ensures GoodCigs(t.(slots := t.slots[i := ChangeCis(t.slots[i], handle, state, forget)]))
  {
    hide FindCis;
  }

  lemma CigStepGood(t: Cigs, e: CigEvent)
    requires GoodCigs(t)
    ensures GoodCigs(CigStep(t, e).0)
  {
    hide FindCig, FreeCig, FindCis, AnyEstablished, MarkAll, NewCis, GoodStreams, ChangeCis;
    match e
    case SetParams(_, cisIds, _) =>
      if 1 <= |cisIds| <= MAX_CIS {
        NewStreams(cisIds);
      }
    case CreateCis(id, handles, _) =>
      var at := FindCig(t.slots, id);
      if at < MAX_CIG {
        MarksExactly(t.slots[at].cis, handles);
      }
    case Remove(_, _) =>
    case CisEstablished(handle, _) => ChangeFirstGood(t, handle, Established, false);
    case DisconnectCis(handle, _) => ChangeFirstGood(t, handle, Disconnecting, false);
    case CisDisconnected(handle) => ChangeFirstGood(t, handle, CisIdle, true);
    case CisDisconnectedByStack(handle) => ChangeFirstGood(t, handle, CisIdle, false);
  }

  lemma ChangeFirstGood(t: Cigs, handle: uint16, state: CisState, forget: bool)
    requires GoodCigs(t)
    ensures GoodCigs(ChangeFirst(t, handle, state, forget).0)
  {
    hide Has, ChangeCis, GoodCigs;
    SlotsOf(t);
    if Has(t.slots[0], handle) {
      ChangeGood(t, 0, handle, state, forget);
    } else if Has(t.slots[1], handle) {
      ChangeGood(t, 1, handle, state, forget);
    }
  }

  lemma SlotsOf(t: Cigs)
    requires GoodCigs(t)
    ensures |t.slots| == MAX_CIG
  {
  }

  // Stream `j` of the group in slot `i` is the first one with the handle.
  ghost predicate IsFirst(t: Cigs, handle: uint16, i: nat, j: nat)
  {
    && i < |t.slots| && t.slots[i].inUse && j < |t.slots[i].cis| && t.slots[i].cis[j].handle == handle
    && (forall l :: 0 <= l < j ==> t.slots[i].cis[l].handle != handle)
    && forall k, l :: 0 <= k < i && t.slots[k].inUse && 0 <= l < |t.slots[k].cis| ==> t.slots[k].cis[l].handle != handle
  }

  // Only this stream has changed, and is `c` now.
  ghost predicate OnlyStream(t: Cigs, after: Cigs, i: nat, j: nat, c: Cis)
    requires i < |t.slots| && j < |t.slots[i].cis|
  {
    after == t.(slots := t.slots[i := t.slots[i].(cis := t.slots[i].cis[j := c])])
  }

  lemma FirstStream(t: Cigs, handle: uint16, state: CisState, forget: bool)
    requires |t.slots| == MAX_CIG
    ensures var (after, code) := ChangeFirst(t, handle, state, forget);
      && (code == Fine || code == NotFound)
      && (code == Fine <==> exists i: nat, j: nat :: IsFirst(t, handle, i, j))
      && (code != Fine ==> after == t)
      && forall i: nat, j: nat :: IsFirst(t, handle, i, j) ==>
           OnlyStream(t, after, i, j, Cis(t.slots[i].cis[j].id, t.slots[i].cis[j].original,
                                          if forget then 0xFFFF else handle, state))
  {
    hide FindCis;
    var (after, code) := ChangeFirst(t, handle, state, forget);
    if code == Fine {
      var i := if Has(t.slots[0], handle) then 0 else 1;
      assert IsFirst(t, handle, i, FindCis(t.slots[i].cis, handle));
    }
    forall i: nat, j: nat | IsFirst(t, handle, i, j)
      ensures Has(t.slots[i], handle) && FindCis(t.slots[i].cis, handle) == j && (i == 1 ==> !Has(t.slots[0], handle))
    {
    }
  }

  /** What the events of a stream do, to the first stream with their handle and to no other: established with success,
      it is established; a disconnection asked for makes it disconnecting, also if the command could not be sent; a
      disconnection that the controller reports makes it idle and forgets its handle, one that the stack reports keeps
      the handle. */
  lemma StreamEvents(t: Cigs, e: CigEvent)
    requires |t.slots| == MAX_CIG
    requires e.CisEstablished? || e.DisconnectCis? || e.CisDisconnected? || e.CisDisconnectedByStack?
    ensures var ((after, code), known) := (CigStep(t, e), exists i: nat, j: nat :: IsFirst(t, e.handle, i, j));
      && code == (if e.CisEstablished? && e.status != 0 then CommandFailed
                  else if !known then NotFound
                  else if e.DisconnectCis? && !e.sent then CommandFailed
                  else Fine)
      && (!known || (e.CisEstablished? && e.status != 0) ==> after == t)
      && forall i: nat, j: nat :: IsFirst(t, e.handle, i, j) ==>
           var c := t.slots[i].cis[j];
           match e
           case CisEstablished(_, status) =>
             status == 0 ==> OnlyStream(t, after, i, j, Cis(c.id, c.original, c.handle, Established))
           case DisconnectCis(_, _) => OnlyStream(t, after, i, j, Cis(c.id, c.original, c.handle, Disconnecting))
           case CisDisconnected(_) => OnlyStream(t, after, i, j, Cis(c.id, c.original, 0xFFFF, CisIdle))
           case CisDisconnectedByStack(_) => OnlyStream(t, after, i, j, Cis(c.id, c.original, c.handle, CisIdle))
           case _ => true
  {
    hide ChangeFirst;
    match e
    case CisEstablished(handle, _) => FirstStream(t, handle, Established, false);
    case DisconnectCis(handle, _) => FirstStream(t, handle, Disconnecting, false);
    case CisDisconnected(handle) => FirstStream(t, handle, CisIdle, true);
    case CisDisconnectedByStack(handle) => FirstStream(t, handle, CisIdle, false);
  }

  /** In every run the ids in use are unique and the counter is their number. */
  lemma {:induction false} CigRunGood(events: seq<CigEvent>)
    ensures GoodCigs(CigRun(events)) && CigRun(events).active == |CigIds(CigRun(events))|
    decreases |events|
  {
    if events != [] {
      CigRunGood(events[..|events| - 1]);
      CigStepGood(CigRun(events[..|events| - 1]), events[|events| - 1]);
    }
    IdsOfTwo(CigRun(events));
  }

  // The group with this id.
  function Group(t: Cigs, id: uint8): Cig
    requires GoodCigs(t) && id in CigIds(t)
  {
    t.slots[FindCig(t.slots, id)]
  }

  // A slot's group is found by its id.
  lemma GroupOf(t: Cigs, at: nat)
    requires GoodCigs(t) && at < MAX_CIG && t.slots[at].inUse
    ensures t.slots[at].id in CigIds(t) && Group(t, t.slots[at].id) == t.slots[at]
  {
  }

  // The groups in the other slots stay.
  lemma GroupsStay(t: Cigs, after: Cigs, at: nat, k: uint8)
    requires GoodCigs(t) && GoodCigs(after) && at < MAX_CIG && after.slots == t.slots[at := after.slots[at]]
    requires k in CigIds(t) && k in CigIds(after) && !(t.slots[at].inUse && t.slots[at].id == k)
    ensures Group(after, k) == Group(t, k)
  {
    var i := FindCig(t.slots, k);
    assert t.slots[i].inUse && t.slots[i].id == k;
    GroupOf(after, i);
  }

  // What the searches tell about the ids in use.
  lemma CigSearches(t: Cigs, id: uint8)
    requires GoodCigs(t)
    ensures FindCig(t.slots, id) < MAX_CIG <==> id in CigIds(t)
    ensures (FreeCig(t.slots) < MAX_CIG <==> |CigIds(t)| < MAX_CIG) && |CigIds(t)| <= MAX_CIG
  {
    hide FindCig, FreeCig, GoodStreams;
    IdsOfTwo(t);
  }

  lemma SlotIds(t: Cigs, after: Cigs, at: nat)
    requires GoodCigs(t) && GoodCigs(after) && at < MAX_CIG && after.slots == t.slots[at := after.slots[at]]
    requires !t.slots[at].inUse && after.slots[at].inUse
    ensures CigIds(after) == CigIds(t) + {after.slots[at].id}
  {
    IdsOfTwo(t);
    IdsOfTwo(after);
  }

  /** Setting parameters makes a new group, exactly if the command is granted, the id is not in use and there is
      room; the other groups stay. */
  lemma SetParamsAdds(t: Cigs, id: uint8, cisIds: seq<uint8>, answer: Answer)
    requires GoodCigs(t)
    ensures var (after, code) := CigStep(t, SetParams(id, cisIds, answer));
      && (code == Fine <==>
            1 <= |cisIds| <= MAX_CIS && id !in CigIds(t) && |CigIds(t)| < MAX_CIG && answer == Granted)
      && (code == InvalidParam <==> !(1 <= |cisIds| <= MAX_CIS))
      && (code == Exists <==> 1 <= |cisIds| <= MAX_CIS && id in CigIds(t))
      && (code == NoResources <==> 1 <= |cisIds| <= MAX_CIS && id !in CigIds(t) && |CigIds(t)| == MAX_CIG)
      && (code == TimedOut ==> answer == NoAnswer) && (code == CommandFailed ==> answer == NotSent || answer == Refused)
      && code != NotFound && code != InvalidState
      && (code != Fine ==> after == t)
      && GoodCigs(after)
      && CigIds(after) == (if code == Fine then CigIds(t) + {id} else CigIds(t))
      && (code == Fine ==>
            && |Group(after, id).cis| == |cisIds|
            && forall j :: 0 <= j < |cisIds| ==>
                 Group(after, id).cis[j] == Cis(cisIds[j], 0x0100 + j, 0x0100 + j, Configured))
      && forall k :: k in CigIds(t) ==> Group(after, k) == Group(t, k)
  {
    hide FindCig, FreeCig, Group, CigIds;
    var (after, code) := CigStep(t, SetParams(id, cisIds, answer));
    CigStepGood(t, SetParams(id, cisIds, answer));
    CigSearches(t, id);
    if code == Fine {
      var at := FreeCig(t.slots);
      SlotIds(t, after, at);
      GroupOf(after, at);
      forall k | k in CigIds(t) ensures Group(after, k) == Group(t, k) {
        GroupsStay(t, after, at, k);
      }
    }
  }

  lemma SlotLeaves(t: Cigs, after: Cigs, at: nat)
    requires GoodCigs(t) && GoodCigs(after) && at < MAX_CIG && after.slots == t.slots[at := after.slots[at]]
    requires t.slots[at].inUse && !after.slots[at].inUse
    ensures CigIds(after) == CigIds(t) - {t.slots[at].id}
  {
    IdsOfTwo(t);
    IdsOfTwo(after);
  }

  lemma AnyIs(cs: seq<Cis>)
    ensures AnyEstablished(cs) <==> exists c :: c in cs && c.state == Established
  {
    if AnyEstablished(cs) {
      var j :| 0 <= j < |cs| && cs[j].state == Established;
      assert cs[j] in cs;
    }
  }

  /** Removing takes exactly this group away, exactly if it is in use, none of its streams is established, and the
      command is granted. */
  lemma RemoveTakes(t: Cigs, id: uint8, answer: Answer)
    requires GoodCigs(t)
    ensures var (after, code) := CigStep(t, Remove(id, answer));
      && (code == NotFound <==> id !in CigIds(t))
      && (id in CigIds(t) ==>
            var established := exists c :: c in Group(t, id).cis && c.state == Established;
            (code == InvalidState <==> established) && (code == Fine <==> !established && answer == Granted))
      && (code == TimedOut ==> answer == NoAnswer) && (code == CommandFailed ==> answer == NotSent || answer == Refused)
      && code != InvalidParam && code != NoResources && code != Exists
      && (code != Fine ==> after == t)
      && GoodCigs(after)
      && CigIds(after) == (if code == Fine then CigIds(t) - {id} else CigIds(t))
      && forall k :: k in CigIds(after) ==> Group(after, k) == Group(t, k)
  {
    hide FindCig, AnyEstablished, CigIds;
    var (after, code) := CigStep(t, Remove(id, answer));
    if id in CigIds(t) {
      AnyIs(Group(t, id).cis);
    }
    CigStepGood(t, Remove(id, answer));
    CigSearches(t, id);
    if code == Fine {
      SlotLeaves(t, after, FindCig(t.slots, id));
      forall k | k in CigIds(after) ensures Group(after, k) == Group(t, k) {
        GroupsStay(t, after, FindCig(t.slots, id), k);
      }
    }
  }

  /** Creating streams succeeds exactly for at least one handle, an id in use and a command that could be sent; it marks
      exactly the streams of this group that have one of the handles, also if the command could not be sent. */
  lemma CreateCisMarks(t: Cigs, id: uint8, handles: seq<uint16>, sent: bool)
    requires GoodCigs(t)
    ensures var (after, code) := CigStep(t, CreateCis(id, handles, sent));
      && GoodCigs(after) && CigIds(after) == CigIds(t)
      && (code == Fine <==> handles != [] && id in CigIds(t) && sent)
      && (code == InvalidParam <==> handles == []) && (code == NotFound <==> handles != [] && id !in CigIds(t))
      && (code == CommandFailed <==> handles != [] && id in CigIds(t) && !sent)
      && (handles == [] || id !in CigIds(t) ==> after == t)
      && (id in CigIds(t) ==>
            var before, now := Group(t, id).cis, Group(after, id).cis;
            && |now| == |before|
            && forall j :: 0 <= j < |before| ==>
                 now[j] == if before[j].original in handles then before[j].(state := Connecting) else before[j])
      && forall k :: k in CigIds(t) && k != id ==> Group(after, k) == Group(t, k)
  {
    hide FindCig, CigIds, MarkAll, GoodStreams;
    var after := CigStep(t, CreateCis(id, handles, sent)).0;
    CigStepGood(t, CreateCis(id, handles, sent));
    CigSearches(t, id);
    SameIds(t, after);
    if id in CigIds(t) {
      var at := FindCig(t.slots, id);
      MarksExactly(t.slots[at].cis, handles);
      GroupOf(t, at);
      GroupOf(after, at);
      forall k | k in CigIds(t) && k != id ensures Group(after, k) == Group(t, k) {
        GroupsStay(t, after, at, k);
      }
    }
  }

  lemma SameIds(t: Cigs, after: Cigs)
    requires GoodCigs(t) && GoodCigs(after)
    requires forall i :: 0 <= i < MAX_CIG ==>
      after.slots[i].inUse == t.slots[i].inUse && after.slots[i].id == t.slots[i].id
    ensures CigIds(after) == CigIds(t)
  {
    IdsOfTwo(t);
    IdsOfTwo(after);
  }

  // Broadcast groups. `created` counts the groups that hci_isoc_create_big took a slot for: it does not count
  // them in `active`, but their termination does.
  datatype Bigs = Bigs(slots: seq<Big>, active: uint8, created: nat)

  datatype BigEvent =
    | Create(handle: uint8, numBis: uint8, sent: bool)
    | CreateComplete(handle: uint8, status: uint8)
    | Terminate(handle: uint8, sent: bool)
    | TerminateComplete(handle: uint8)
    | SyncEstablished(handle: uint8, status: uint8)
    | SyncLost(handle: uint8)
    | SyncLostByStack(handle: uint8)
    | TerminateSync(handle: uint8, answer: Answer)

  function FindBig(slots: seq<Big>, handle: uint8): (at: nat)
    ensures at <= |slots| && (at < |slots| ==> slots[at].inUse && slots[at].handle == handle)
    ensures forall i :: 0 <= i < at ==> !(slots[i].inUse && slots[i].handle == handle)
  {
    if slots == [] then 0
    else
      var n := |slots| - 1;
      var at := FindBig(slots[..n], handle);
      if at < n || (slots[n].inUse && slots[n].handle == handle) then at else |slots|
  }

  function FreeBig(slots: seq<Big>): (at: nat)
    ensures at <= |slots| && (at < |slots| ==> !slots[at].inUse)
    ensures forall i :: 0 <= i < at ==> slots[i].inUse
  {
    if slots == [] then 0
    else
      var n := |slots| - 1;
      var at := FreeBig(slots[..n]);
      if at < n || !slots[n].inUse then at else |slots|
  }

  // A group that the controller reports: in its slot, or in a free one that is then counted.
  function Report(t: Bigs, handle: uint8, isSource: bool): (Bigs, Code)
    requires |t.slots| == MAX_BIG
  {
    var at := FindBig(t.slots, handle);
    if at < MAX_BIG then (t.(slots := t.slots[at := t.slots[at].(state := Active)]), Fine)
    else
      var free := FreeBig(t.slots);
      if free == MAX_BIG then (t, NoResources)
      else
        (t.(slots := t.slots[free := Big(true, handle, isSource, Active)], active := Wrap8(t.active + 1)), Fine)
  }

  function Release(t: Bigs, at: nat): Bigs
    requires at < |t.slots|
  {
    t.(slots := t.slots[at := t.slots[at].(inUse := false, state := BigIdle)], active := Wrap8(t.active - 1))
  }

  function BigStep(t: Bigs, e: BigEvent): (Bigs, Code)
    requires |t.slots| == MAX_BIG
  {
    match e
    case Create(handle, numBis, sent) =>
      if numBis == 0 || numBis > MAX_BIS then (t, InvalidParam)
      else if FindBig(t.slots, handle) < MAX_BIG then (t, Exists)
      else
        var at := FreeBig(t.slots);
        if at == MAX_BIG then (t, NoResources)
        else
          (Bigs(t.slots[at := Big(sent, handle, true, Creating)], t.active, t.created + One(sent)),
           if sent then Fine else CommandFailed)
    case CreateComplete(handle, status) => if status == 0 then Report(t, handle, true) else (t, CommandFailed)
    case Terminate(handle, sent) =>
      var at := FindBig(t.slots, handle);
      if at == MAX_BIG then (t, NotFound)
      else
        (t.(slots := t.slots[at := t.slots[at].(state := Terminating)]), if sent then Fine else CommandFailed)
    case TerminateComplete(handle) =>
      var at := FindBig(t.slots, handle);
      if at == MAX_BIG then (t, NotFound) else (Release(t, at), Fine)
    case SyncEstablished(handle, status) => if status == 0 then Report(t, handle, false) else (t, CommandFailed)
    case SyncLost(handle) =>
      var at := FindBig(t.slots, handle);
      if at == MAX_BIG || t.slots[at].isSource then (t, NotFound) else (Release(t, at), Fine)
    case SyncLostByStack(handle) =>
      var at := FindBig(t.slots, handle);
      if at == MAX_BIG then (t, NotFound) else (Release(t, at), Fine)
    case TerminateSync(handle, answer) =>
      var at := FindBig(t.slots, handle);
      if at == MAX_BIG || t.slots[at].isSource then (t, NotFound)
      else if answer != Granted then (t, CodeOf(answer))
      else (Release(t, at), Fine)
  }

  function InUse(t: Bigs): nat
    requires |t.slots| == MAX_BIG
  {
    One(t.slots[0].inUse) + One(t.slots[1].inUse)
  }

  // Handles in use are unique; the counter misses the groups that were created here.
  ghost predicate GoodBigs(t: Bigs)
  {
    && |t.slots| == MAX_BIG
    && !(t.slots[0].inUse && t.slots[1].inUse && t.slots[0].handle == t.slots[1].handle)
    && t.active == Wrap8(InUse(t) - t.created)
  }

  const NO_BIGS := Bigs([Big(false, 0, false, BigIdle), Big(false, 0, false, BigIdle)], 0, 0)

  function BigRun(events: seq<BigEvent>): (t: Bigs)
    ensures |t.slots| == MAX_BIG
  {
    if events == [] then NO_BIGS else BigStep(BigRun(events[..|events| - 1]), events[|events| - 1]).0
  }

  lemma ReportGood(t: Bigs, handle: uint8, isSource: bool)
    requires GoodBigs(t)
    ensures GoodBigs(Report(t, handle, isSource).0) && Report(t, handle, isSource).0.created == t.created
  {
    hide FindBig, FreeBig, Wrap8;
    WrapStep8(InUse(t) - t.created, 1);
  }

  lemma ReleaseGood(t: Bigs, at: nat)
    requires GoodBigs(t) && at < MAX_BIG && t.slots[at].inUse
    ensures GoodBigs(Release(t, at)) && Release(t, at).created == t.created
  {
    hide Wrap8;
    WrapStep8(InUse(t) - t.created, -1);
  }

  lemma WrapStep8(n: int, d: int)
    ensures Wrap8(Wrap8(n) + d) == Wrap8(n + d)
  {
  }

  lemma BigStepGood(t: Bigs, e: BigEvent)
    requires GoodBigs(t)
    ensures GoodBigs(BigStep(t, e).0) && (!e.Create? ==> BigStep(t, e).0.created == t.created)
  {
    hide FindBig, FreeBig, Report, Release;
    match e
    case CreateComplete(handle, _) => ReportGood(t, handle, true);
    case SyncEstablished(handle, _) => ReportGood(t, handle, false);
    case Create(_, _, _) =>
    case _ =>
      var at := FindBig(t.slots, e.handle);
      if at < MAX_BIG {
        ReleaseGood(t, at);
      }
  }

  /** In every run the handles in use are unique; and the counter is their number exactly if the number of groups
      created here is a multiple of 256, for instance in every run that only uses the sink side. */
  lemma {:induction false} BigRunGood(events: seq<BigEvent>)
    ensures var t := BigRun(events);
      GoodBigs(t) && (t.active == InUse(t) <==> t.created % U8 == 0)
    decreases |events|
  {
    if events != [] {
      BigRunGood(events[..|events| - 1]);
      BigStepGood(BigRun(events[..|events| - 1]), events[|events| - 1]);
    }
    CountMod(BigRun(events));
  }

  ghost function BigHandles(t: Bigs): set<uint8>
  {
    set i | 0 <= i < |t.slots| && t.slots[i].inUse :: t.slots[i].handle
  }

  lemma HandlesOfTwo(t: Bigs)
    requires GoodBigs(t)
    ensures BigHandles(t) == (if t.slots[0].inUse then {t.slots[0].handle} else {})
                           + (if t.slots[1].inUse then {t.slots[1].handle} else {})
    ensures |BigHandles(t)| == InUse(t)
  {
    assert BigHandles(t) == (if t.slots[0].inUse then {t.slots[0].handle} else {})
                          + (if t.slots[1].inUse then {t.slots[1].handle} else {});
  }

  // The group with this handle.
  function BigOf(t: Bigs, handle: uint8): Option<Big>
  {
    var at := FindBig(t.slots, handle);
    if at < |t.slots| then Some(t.slots[at]) else None
  }

  lemma BigAt(t: Bigs, at: nat)
    requires GoodBigs(t) && at < MAX_BIG && t.slots[at].inUse
    ensures t.slots[at].handle in BigHandles(t) && BigOf(t, t.slots[at].handle) == Some(t.slots[at])
  {
  }

  // What the searches tell about the handles in use.
  lemma Searches(t: Bigs, handle: uint8)
    requires GoodBigs(t)
    ensures |t.slots| == MAX_BIG
    ensures FindBig(t.slots, handle) < MAX_BIG <==> handle in BigHandles(t)
    ensures (FreeBig(t.slots) < MAX_BIG <==> |BigHandles(t)| < MAX_BIG) && |BigHandles(t)| <= MAX_BIG
  {
    hide FindBig, FreeBig;
    HandlesOfTwo(t);
  }

  // One slot changes: a group comes, or keeps its handle.
  lemma BigsGain(t: Bigs, after: Bigs, at: nat)
    requires GoodBigs(t) && GoodBigs(after) && at < MAX_BIG && after.slots == t.slots[at := after.slots[at]]
    requires after.slots[at].inUse && (t.slots[at].inUse ==> t.slots[at].handle == after.slots[at].handle)
    ensures BigHandles(after) == BigHandles(t) + {after.slots[at].handle}
  {
    HandlesOfTwo(t);
    HandlesOfTwo(after);
  }

  lemma ReportMakesActive(t: Bigs, handle: uint8, isSource: bool)
    requires GoodBigs(t)
    ensures var ((after, code), known) := (Report(t, handle, isSource), handle in BigHandles(t));
      && code == (if known || |BigHandles(t)| < MAX_BIG then Fine else NoResources)
      && (code != Fine ==> after == t)
      && (code == Fine ==>
            && GoodBigs(after) && BigHandles(after) == BigHandles(t) + {handle}
            && BigOf(after, handle) ==
                 Some(Big(true, handle, if known then BigOf(t, handle).value.isSource else isSource, Active)))
  {
    hide FindBig, FreeBig, BigHandles, BigOf;
    ReportGood(t, handle, isSource);
    Searches(t, handle);
    var (after, code) := Report(t, handle, isSource);
    if code == Fine {
      var known := FindBig(t.slots, handle) < MAX_BIG;
      var at := if known then FindBig(t.slots, handle) else FreeBig(t.slots);
      if known {
        BigAt(t, at);
      }
      BigsGain(t, after, at);
      BigAt(after, at);
    }
  }

  /** The two reports of the controller, that a group was created and that synchronization was established: with the
      status zero they make their group active, exactly if it is known or there is room; a group that was not known
      becomes a source or a sink. With any other status they change nothing. */
  lemma ReportEvents(t: Bigs, e: BigEvent)
    requires GoodBigs(t) && (e.CreateComplete? || e.SyncEstablished?)
    ensures var ((after, code), known) := (BigStep(t, e), e.handle in BigHandles(t));
      && code == (if e.status != 0 then CommandFailed
                  else if known || |BigHandles(t)| < MAX_BIG then Fine
                  else NoResources)
      && (code != Fine ==> after == t)
      && (code == Fine ==>
            && GoodBigs(after) && BigHandles(after) == BigHandles(t) + {e.handle}
            && BigOf(after, e.handle) ==
                 Some(Big(true, e.handle,
                          if known then BigOf(t, e.handle).value.isSource else e.CreateComplete?, Active)))
  {
    hide Report, BigHandles, BigOf;
    ReportMakesActive(t, e.handle, e.CreateComplete?);
  }

  /** Asking for the end of a group marks it, also if the command could not be sent, and nothing else. */
  lemma TerminateMarks(t: Bigs, handle: uint8, sent: bool)
    requires GoodBigs(t)
    ensures var ((after, code), known) := (BigStep(t, Terminate(handle, sent)), handle in BigHandles(t));
      && code == (if !known then NotFound else if sent then Fine else CommandFailed)
      && BigHandles(after) == BigHandles(t) && after.active == t.active
      && (!known ==> after == t)
      && (known ==> BigOf(after, handle) == Some(BigOf(t, handle).value.(state := Terminating)))
  {
    hide FindBig, BigHandles, BigOf;
    BigStepGood(t, Terminate(handle, sent));
    Searches(t, handle);
    var after := BigStep(t, Terminate(handle, sent)).0;
    var at := FindBig(t.slots, handle);
    if at < MAX_BIG {
      BigsGain(t, after, at);
      BigAt(t, at);
      BigAt(after, at);
      assert BigHandles(t) + {handle} == BigHandles(t);
    }
  }

  /** Creating a group as source takes a slot exactly for one to four streams, a new handle, a free slot and a
      command that could be sent. */
  lemma CreateTakesSlot(t: Bigs, handle: uint8, numBis: uint8, sent: bool)
    requires GoodBigs(t)
    ensures var (after, code) := BigStep(t, Create(handle, numBis, sent));
      && code == (if !(1 <= numBis <= MAX_BIS) then InvalidParam
                  else if handle in BigHandles(t) then Exists
                  else if |BigHandles(t)| == MAX_BIG then NoResources
                  else if sent then Fine else CommandFailed)
      && GoodBigs(after) && BigHandles(after) == BigHandles(t) + (if code == Fine then {handle} else {})
      && after.active == t.active
      && (code == Fine ==> BigOf(after, handle) == Some(Big(true, handle, true, Creating)))
  {
    hide FindBig, FreeBig, BigHandles, BigOf;
    BigStepGood(t, Create(handle, numBis, sent));
    Searches(t, handle);
    var (after, code) := BigStep(t, Create(handle, numBis, sent));
    if code == Fine {
      BigsGain(t, after, FreeBig(t.slots));
      BigAt(after, FreeBig(t.slots));
    } else {
      SameHandles(t, after);
    }
  }

  lemma SameHandles(t: Bigs, after: Bigs)
    requires GoodBigs(t) && GoodBigs(after)
    requires forall i :: 0 <= i < MAX_BIG ==>
      after.slots[i].inUse == t.slots[i].inUse && (t.slots[i].inUse ==> after.slots[i] == t.slots[i])
    ensures BigHandles(after) == BigHandles(t)
  {
    HandlesOfTwo(t);
    HandlesOfTwo(after);
  }

  lemma ReleaseTakes(t: Bigs, at: nat)
    requires GoodBigs(t) && at < |t.slots| && t.slots[at].inUse
    ensures GoodBigs(Release(t, at)) && BigHandles(Release(t, at)) == BigHandles(t) - {t.slots[at].handle}
  {
    hide BigHandles, Wrap8;
    ReleaseGood(t, at);
    HandlesOfTwo(t);
    HandlesOfTwo(Release(t, at));
  }

  // The events and calls that can end a group.
  predicate Ends(e: BigEvent) { e.TerminateComplete? || e.SyncLost? || e.SyncLostByStack? || e.TerminateSync? }

  /** The end of a group takes exactly its handle away: of any group, or only of a sink for a sync lost or given up;
      giving up needs the command to be granted. */
  lemma EndTakesAway(t: Bigs, e: BigEvent)
    requires GoodBigs(t) && Ends(e)
    ensures var (after, code) := BigStep(t, e);
      && (code == Fine <==>
            && e.handle in BigHandles(t)
            && (e.SyncLost? || e.TerminateSync? ==> !BigOf(t, e.handle).value.isSource)
            && (e.TerminateSync? ==> e.answer == Granted))
      && (code == NotFound <==>
            e.handle !in BigHandles(t) || ((e.SyncLost? || e.TerminateSync?) && BigOf(t, e.handle).value.isSource))
      && (code == Fine || code == NotFound
          || (e.TerminateSync? && code == if e.answer == NoAnswer then TimedOut else CommandFailed))
      && (code != Fine ==> after == t)
      && (code == Fine ==>
            && GoodBigs(after) && BigHandles(after) == BigHandles(t) - {e.handle}
            && exists i :: 0 <= i < |t.slots| && t.slots[i].handle == e.handle
                 && after.slots == t.slots[i := t.slots[i].(inUse := false, state := BigIdle)])
  {
    hide FindBig, BigHandles, InUse, GoodBigs, Wrap8;
    Searches(t, e.handle);
    var at := FindBig(t.slots, e.handle);
    if at < |t.slots| {
      ReleaseTakes(t, at);
    }
  }

  /** No event touches the other groups. */
  lemma OtherBigsStay(t: Bigs, e: BigEvent, other: uint8)
    requires GoodBigs(t) && e.handle != other
    ensures BigOf(BigStep(t, e).0, other) == BigOf(t, other)
  {
    BigStepGood(t, e);
  }

  lemma CountMod(t: Bigs)
    requires GoodBigs(t)
    ensures t.active == InUse(t) <==> t.created % U8 == 0
  {
  }

  lemma {:induction false} SinkOnly(events: seq<BigEvent>)
    requires forall k :: 0 <= k < |events| ==> !events[k].Create?
    ensures BigRun(events).created == 0 && BigRun(events).active == InUse(BigRun(events))
    decreases |events|
  {
    hide BigStep, GoodBigs;
    BigRunGood(events);
    if events != [] {
      BigRunGood(events[..|events| - 1]);
      BigStepGood(BigRun(events[..|events| - 1]), events[|events| - 1]);
      SinkOnly(events[..|events| - 1]);
    }
  }

  class Groups {
    const cigs: array<Cig>
    const bigs: array<Big>
    var activeCigs: uint8
    var activeBigs: uint8
    ghost var created: nat

    ghost predicate Valid() { cigs.Length == MAX_CIG && bigs.Length == MAX_BIG }

    ghost function Connected(): Cigs
      reads this, cigs
    {
      Cigs(cigs[..], activeCigs)
    }

    ghost function Broadcast(): Bigs
      reads this, bigs
    {
      Bigs(bigs[..], activeBigs, created)
    }

    constructor ()
      ensures Valid() && Connected() == NO_CIGS && Broadcast() == NO_BIGS && fresh(cigs) && fresh(bigs)
    {
      cigs := new Cig[MAX_CIG](_ => Cig(false, 0, []));
      bigs := new Big[MAX_BIG](_ => Big(false, 0, false, BigIdle));
      activeCigs, activeBigs, created := 0, 0, 0;
    }

    method SearchCig(id: uint8) returns (at: nat)
      requires Valid()
      ensures at == FindCig(cigs[..], id)
    {
      at := 0;
      while at < MAX_CIG
        invariant at <= MAX_CIG && forall i :: 0 <= i < at ==> !(cigs[i].inUse && cigs[i].id == id)
      {
        if cigs[at].inUse && cigs[at].id == id {
          break;
        }
        at := at + 1;
      }
    }

    method SearchBig(handle: uint8) returns (at: nat)
      requires Valid()
      ensures at == FindBig(bigs[..], handle)
    {
      at := 0;
      while at < MAX_BIG
        invariant at <= MAX_BIG && forall i :: 0 <= i < at ==> !(bigs[i].inUse && bigs[i].handle == handle)
      {
        if bigs[at].inUse && bigs[at].handle == handle {
          break;
        }
        at := at + 1;
      }
    }

    method SearchFreeBig() returns (at: nat)
      requires Valid()
      ensures at == FreeBig(bigs[..])
    {
      at := 0;
      while at < MAX_BIG
        invariant at <= MAX_BIG && forall i :: 0 <= i < at ==> bigs[i].inUse
      {
        if !bigs[at].inUse {
          break;
        }
        at := at + 1;
      }
    }

    /** hci_isoc_set_cig_params, but for the bytes of the command. */
    method SetCigParams(id: uint8, cisIds: seq<uint8>, answer: Answer) returns (code: Code)
      requires Valid()
      modifies this, cigs
      ensures (Connected(), code) == CigStep(old(Connected()), SetParams(id, cisIds, answer))
      ensures Broadcast() == old(Broadcast())
    {
      if cisIds == [] || |cisIds| > MAX_CIS {
        return InvalidParam;
      }
      var found := SearchCig(id);
      if found < MAX_CIG {
        return Exists;
      }
      var at := 0;
      while at < MAX_CIG
        invariant at <= MAX_CIG && forall i :: 0 <= i < at ==> cigs[i].inUse
        invariant Connected() == old(Connected()) && Broadcast() == old(Broadcast())
      {
        if !cigs[at].inUse {
          break;
        }
        at := at + 1;
      }
      if at == MAX_CIG {
        return NoResources;
      }
      if answer != Granted {
        return CodeOf(answer);
      }
      var cis := [];
      for j := 0 to |cisIds|
        invariant cis == NewCis(cisIds[..j])
        invariant Connected() == old(Connected()) && Broadcast() == old(Broadcast())
      {
        cis := cis + [Cis(cisIds[j], 0x0100 + j, 0x0100 + j, Configured)];
      }
      assert cisIds[..|cisIds|] == cisIds;
      cigs[at] := Cig(true, id, cis);
      activeCigs := Wrap8(activeCigs + 1);
      return Fine;
    }

    /** hci_isoc_remove_cig */
    method RemoveCig(id: uint8, answer: Answer) returns (code: Code)
      requires Valid()
      modifies this, cigs
      ensures (Connected(), code) == CigStep(old(Connected()), Remove(id, answer))
      ensures Broadcast() == old(Broadcast())
    {
      var at := SearchCig(id);
      if at == MAX_CIG {
        return NotFound;
      }
      var cis := cigs[at].cis;
      for j := 0 to |cis|
        invariant forall k :: 0 <= k < j ==> cis[k].state != Established
        invariant Connected() == old(Connected()) && Broadcast() == old(Broadcast())
      {
        if cis[j].state == Established {
          return InvalidState;
        }
      }
      if answer != Granted {
        return CodeOf(answer);
      }
      cigs[at] := cigs[at].(inUse := false);
      activeCigs := Wrap8(activeCigs - 1);
      return Fine;
    }

    /** hci_isoc_create_cis; of the connections only the handles of the streams are modelled. */
    method CreateStreams(id: uint8, handles: seq<uint16>, sent: bool) returns (code: Code)
      requires Valid()
      modifies cigs
      ensures (Connected(), code) == CigStep(old(Connected()), CreateCis(id, handles, sent))
    {
      if handles == [] {
        return InvalidParam;
      }
      var at := SearchCig(id);
      if at == MAX_CIG {
        return NotFound;
      }
      ghost var cis := cigs[at].cis;
      for i := 0 to |handles|
        invariant cigs[..] == old(cigs[..])[at := old(cigs[at]).(cis := MarkAll(cis, handles[..i]))]
      {
        assert handles[..i + 1][..i] == handles[..i];
        MarkStream(at, handles[i]);
      }
      assert handles[..|handles|] == handles;
      return if sent then Fine else CommandFailed;
    }

    method MarkStream(at: nat, handle: uint16)
      requires Valid() && at < MAX_CIG
      modifies cigs
      ensures cigs[..] == old(cigs[..])[at := old(cigs[at]).(cis := Mark(old(cigs[at]).cis, handle))]
    {
      var cis, j := cigs[at].cis, 0;
      while j < |cis|
        invariant j <= |cis| && forall k :: 0 <= k < j ==> cis[k].original != handle
        invariant cigs[..] == old(cigs[..])
      {
        if cis[j].original == handle {
          assert FindOriginal(cis, handle) == j;
          cigs[at] := cigs[at].(cis := cis[j := cis[j].(state := Connecting)]);
          return;
        }
        j := j + 1;
      }
    }

    // The inner loop of find_cis.
    method SearchCis(cis: seq<Cis>, handle: uint16) returns (at: nat)
      ensures at == FindCis(cis, handle)
    {
      at := 0;
      while at < |cis|
        invariant at <= |cis| && forall j :: 0 <= j < at ==> cis[j].handle != handle
      {
        if cis[at].handle == handle {
          break;
        }
        at := at + 1;
      }
    }

    /** find_cis and the change that its callers make: established, disconnecting, or idle, with the handle kept or
        forgotten. */
    method UpdateCis(handle: uint16, state: CisState, forget: bool) returns (code: Code)
      requires Valid()
      modifies cigs
      ensures (Connected(), code) == ChangeFirst(old(Connected()), handle, state, forget)
    {
      hide FindCis;
      for i := 0 to MAX_CIG
        invariant forall k :: 0 <= k < i ==> !Has(cigs[k], handle)
        invariant cigs[..] == old(cigs[..])
      {
        if cigs[i].inUse {
          var cis := cigs[i].cis;
          var j := SearchCis(cis, handle);
          if j < |cis| {
            cigs[i] := cigs[i].(cis := cis[j := Changed(cis[j], state, forget)]);
            assert cigs[..] == old(cigs[..])[i := ChangeCis(old(cigs[i]), handle, state, forget)];
            return Fine;
          }
        }
      }
      return NotFound;
    }

    /** handle_cis_established */
    method HandleCisEstablished(handle: uint16, status: uint8) returns (code: Code)
      requires Valid()
      modifies cigs
      ensures (Connected(), code) == CigStep(old(Connected()), CisEstablished(handle, status))
    {
      if status != 0 {
        return CommandFailed;
      }
      code := UpdateCis(handle, Established, false);
    }

    /** hci_isoc_disconnect_cis */
    method DisconnectStream(handle: uint16, sent: bool) returns (code: Code)
      requires Valid()
      modifies cigs
      ensures (Connected(), code) == CigStep(old(Connected()), DisconnectCis(handle, sent))
    {
      code := UpdateCis(handle, Disconnecting, false);
      if code == Fine && !sent {
        return CommandFailed;
      }
    }

    /** The end of a stream, as the controller reports it or as the stack does. */
    method HandleCisDisconnected(handle: uint16, byStack: bool) returns (code: Code)
      requires Valid()
      modifies cigs
      ensures (Connected(), code) ==
        CigStep(old(Connected()), if byStack then CisDisconnectedByStack(handle) else CisDisconnected(handle))
    {
      code := UpdateCis(handle, CisIdle, !byStack);
    }

    /** hci_isoc_create_big */
    method CreateBig(handle: uint8, numBis: uint8, sent: bool) returns (code: Code)
      requires Valid()
      modifies this, bigs
      ensures (Broadcast(), code) == BigStep(old(Broadcast()), Create(handle, numBis, sent))
      ensures Connected() == old(Connected())
    {
      if numBis == 0 || numBis > MAX_BIS {
        return InvalidParam;
      }
      var found := SearchBig(handle);
      if found < MAX_BIG {
        return Exists;
      }
      var at := SearchFreeBig();
      if at == MAX_BIG {
        return NoResources;
      }
      bigs[at] := Big(true, handle, true, Creating);
      if !sent {
        bigs[at] := bigs[at].(inUse := false);
        assert bigs[..] == old(bigs[..])[at := Big(false, handle, true, Creating)];
        return CommandFailed;
      }
      created := created + 1;
      assert bigs[..] == old(bigs[..])[at := Big(true, handle, true, Creating)];
      return Fine;
    }

    /** The events LE Create BIG Complete and LE BIG Sync Established. */
    method HandleReport(handle: uint8, status: uint8, isSource: bool) returns (code: Code)
      requires Valid()
      modifies this, bigs
      ensures (Broadcast(), code) == BigStep(old(Broadcast()),
                if isSource then CreateComplete(handle, status) else SyncEstablished(handle, status))
      ensures Connected() == old(Connected())
    {
      if status != 0 {
        return CommandFailed;
      }
      var at := SearchBig(handle);
      if at == MAX_BIG {
        at := SearchFreeBig();
        if at == MAX_BIG {
          return NoResources;
        }
        bigs[at] := bigs[at].(inUse := true, isSource := isSource);
        activeBigs := Wrap8(activeBigs + 1);
      }
      bigs[at] := bigs[at].(handle := handle, state := Active);
      assert bigs[..] == old(bigs[..])[at := bigs[at]];
      return Fine;
    }

    /** hci_isoc_terminate_big */
    method TerminateBig(handle: uint8, sent: bool) returns (code: Code)
      requires Valid()
      modifies bigs
      ensures (Broadcast(), code) == BigStep(old(Broadcast()), Terminate(handle, sent))
    {
      var at := SearchBig(handle);
      if at == MAX_BIG {
        return NotFound;
      }
      bigs[at] := bigs[at].(state := Terminating);
      return if sent then Fine else CommandFailed;
    }

    /** The ends of a group: LE Terminate BIG Complete, and LE BIG Sync Lost as the controller reports it (sinks
        only) or as the stack does. */
    method HandleEnd(e: BigEvent) returns (code: Code)
      requires Valid() && (e.TerminateComplete? || e.SyncLost? || e.SyncLostByStack?)
      modifies this, bigs
      ensures (Broadcast(), code) == BigStep(old(Broadcast()), e)
      ensures Connected() == old(Connected())
    {
      var at := SearchBig(e.handle);
      if at == MAX_BIG || (e.SyncLost? && bigs[at].isSource) {
        return NotFound;
      }
      bigs[at] := bigs[at].(inUse := false, state := BigIdle);
      activeBigs := Wrap8(activeBigs - 1);
      return Fine;
    }

    /** hci_isoc_big_terminate_sync */
    method BigTerminateSync(handle: uint8, answer: Answer) returns (code: Code)
      requires Valid()
      modifies this, bigs
      ensures (Broadcast(), code) == BigStep(old(Broadcast()), TerminateSync(handle, answer))
      ensures Connected() == old(Connected())
    {
      var at := SearchBig(handle);
      if at == MAX_BIG || bigs[at].isSource {
        return NotFound;
      }
      if answer != Granted {
        return CodeOf(answer);
      }
      bigs[at] := bigs[at].(inUse := false, state := BigIdle);
      activeBigs := Wrap8(activeBigs - 1);
      return Fine;
    }
  }
}
