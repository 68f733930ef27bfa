/**
 The two tables of connections: the two slots of `link.c` with the pointer to the active link, and the four
 slots of `gatt_db.c`, both fed by the connection events of the stack.
 */
module Links {
  import opened Words

  const MAX_LINKS := 2
  const MAX_CONNECTIONS := 4

  // A slot is empty when its connection id is zero.
  datatype Link = Link(conn: uint16, acl: uint16, addr: seq<uint8>, transport: Transport, flags: set<Flag>)

  datatype Transport = NoTransport | LowEnergy

  // The flags that are set.
  datatype Flag = Encrypted | ParameterUpdated | IndicationPending | Bonded

  const EMPTY := Link(0, 0, [0, 0, 0, 0, 0, 0], NoTransport, {})

  // `active` is the index of the link with the latest activity.
  datatype Links = Links(slots: seq<Link>, active: Option<nat>)

  datatype Status = Success | NoResources | OutOfSync

  // The first slot with this id, or the number of slots.
  function Find(slots: seq<Link>, conn: uint16): (at: nat)
    ensures at <= |slots| && (at < |slots| ==> slots[at].conn == conn)
    ensures forall i :: 0 <= i < at ==> slots[i].conn != conn
  {
    if slots == [] then 0
    else
      var n := |slots| - 1;
      var at := Find(slots[..n], conn);
      if at < n || slots[n].conn == conn then at else |slots|
  }

  function FirstConnected(slots: seq<Link>): (at: Option<nat>)
    ensures at.Some? ==> at.value < |slots| && slots[at.value].conn != 0
    ensures forall i :: 0 <= i < (if at.Some? then at.value else |slots|) ==> slots[i].conn == 0
  {
    if slots == [] then None
    else
      match FirstConnected(slots[..|slots| - 1])
      case Some(i) => Some(i)
      case None => if slots[|slots| - 1].conn != 0 then Some(|slots| - 1) else None
  }

  datatype Event =
    | Up(conn: uint16, addr: seq<uint8>, acl: uint16)
    | Down(conn: uint16)
    | Lookup(conn: uint16)
    | SetFlag(flag: Flag, on: bool)

  function WithFlag(link: Link, flag: Flag, on: bool): Link
  {
    link.(flags := if on then link.flags + {flag} else link.flags - {flag})
  }

  // Even a lookup makes the link that it finds the active one.
  function Step(l: Links, e: Event): (Links, Status)
    requires l.active.Some? ==> l.active.value < |l.slots|
  {
    match e
    case Up(conn, addr, acl) =>
      var found := Find(l.slots, conn);
      var at := if found < |l.slots| then found else Find(l.slots, 0);
      if at == |l.slots| then (l, NoResources)
      else (Links(l.slots[at := Link(conn, acl, addr, LowEnergy, {})], Some(at)), Success)
    case Down(conn) =>
      var at := Find(l.slots, conn);
      if at == |l.slots| then (l, OutOfSync)
      else
        var slots := l.slots[at := EMPTY];
        (Links(slots, FirstConnected(slots)), Success)
    case Lookup(conn) =>
      var at := Find(l.slots, conn);
      if at == |l.slots| then (l, OutOfSync) else (l.(active := Some(at)), Success)
    case SetFlag(flag, on) =>
      match l.active
      case None => (l, Success)
      case Some(at) => (l.(slots := l.slots[at := WithFlag(l.slots[at], flag, on)]), Success)
  }

  class LinkTable {
    const slots: array<Link>
    var active: Option<nat>

    ghost predicate Valid()
      reads this
    {
      slots.Length == MAX_LINKS && (active.Some? ==> active.value < MAX_LINKS)
    }

    ghost function View(): Links
      reads this, slots
    {
      Links(slots[..], active)
    }

    constructor ()
      ensures Valid() && View() == Links([EMPTY, EMPTY], None) && fresh(slots)
    {
      slots := new Link[MAX_LINKS](_ => EMPTY);
      active := None;
    }

    // find_by_conn_id, without its effect on the active link.
    method Search(conn: uint16) returns (at: nat)
      requires Valid()
      ensures at == Find(slots[..], conn)
    {
      at := 0;
      while at < MAX_LINKS
        invariant at <= MAX_LINKS && forall i :: 0 <= i < at ==> slots[i].conn != conn
      {
        if slots[at].conn == conn {
          break;
        }
        at := at + 1;
      }
    }

    /** link_get_by_conn_id, and find_by_conn_id inside the other operations. */
    method GetByConnId(conn: uint16) returns (at: nat)
      requires Valid()
      modifies `active
      ensures Valid() && at == Find(slots[..], conn) && View() == Step(old(View()), Lookup(conn)).0
    {
      at := Search(conn);
      if at < MAX_LINKS {
        active := Some(at);
      }
    }

    // find_first_connected
    method SearchConnected() returns (at: Option<nat>)
      requires Valid()
      ensures at == FirstConnected(slots[..])
    {
      for i := 0 to MAX_LINKS
        invariant forall j :: 0 <= j < i ==> slots[j].conn == 0
      {
        if slots[i].conn != 0 {
          return Some(i);
        }
      }
      return None;
    }

    /** link_up; `acl` is the handle that the stack gives for the address. */
    method LinkUp(conn: uint16, addr: seq<uint8>, acl: uint16) returns (status: Status)
      requires Valid()
      modifies this, slots
      ensures Valid() && (View(), status) == Step(old(View()), Up(conn, addr, acl))
    {
      var at := GetByConnId(conn);
      if at == MAX_LINKS {
        at := Search(0);
        if at == MAX_LINKS {
          return NoResources;
        }
      }
      slots[at] := Link(conn, acl, addr, LowEnergy, {});
      active := Some(at);
      return Success;
    }

    /** link_down */
    method LinkDown(conn: uint16) returns (status: Status)
      requires Valid()
      modifies this, slots
      ensures Valid() && (View(), status) == Step(old(View()), Down(conn))
    {
      var at := GetByConnId(conn);
      if at == MAX_LINKS {
        return OutOfSync;
      }
      slots[at] := EMPTY;
      if active == Some(at) {
        active := None;
      }
      active := SearchConnected();
      return Success;
    }

    /** link_set_encrypted and the setters of the other flags. */
    method SetActiveFlag(flag: Flag, on: bool)
      requires Valid()
      modifies slots
      ensures Valid() && View() == Step(old(View()), SetFlag(flag, on)).0
    {
      if active.Some? {
        slots[active.value] := WithFlag(slots[active.value], flag, on);
      }
    }

    /** link_is_encrypted and the other getters: false without an active link. */
    method IsFlagSet(flag: Flag) returns (on: bool)
      requires Valid()
      ensures on <==> ActiveFlag(View(), flag)
    {
      on := active.Some? && flag in slots[active.value].flags;
    }

    /** link_transport */
    method GetTransport() returns (t: Transport)
      requires Valid() && Good(View())
      ensures t == LowEnergy <==> Ids(slots[..]) != {}
    {
      t := if active.Some? then slots[active.value].transport else NoTransport;
      if active.Some? {
        assert slots[..][active.value].conn in Ids(slots[..]);
      }
    }

    /** link_get_connection_count */
    method GetConnectionCount() returns (count: uint8)
      requires Valid() && Good(View())
      ensures count == |Ids(slots[..])|
    {
      hide Good, Ids;
      count := 0;
      for i := 0 to MAX_LINKS
        invariant count ==
          (if i > 0 && slots[0].conn != 0 then 1 else 0) + (if i > 1 && slots[1].conn != 0 then 1 else 0)
      {
        if slots[i].conn != 0 {
          count := Wrap8(count + 1);
        }
      }
      IdsOfTwo(View());
    }
  }

  ghost function Ids(slots: seq<Link>): set<uint16>
  {
    set i | 0 <= i < |slots| && slots[i].conn != 0 :: slots[i].conn
  }

  // Connected slots have distinct ids, empty slots are blank, and the active link is connected if any link is.
  ghost predicate Good(l: Links)
  {
    && |l.slots| == MAX_LINKS
    && (forall i, j :: 0 <= i < j < MAX_LINKS && l.slots[i].conn != 0 ==> l.slots[i].conn != l.slots[j].conn)
    && (forall i :: 0 <= i < MAX_LINKS ==>
          if l.slots[i].conn == 0 then l.slots[i] == EMPTY else l.slots[i].transport == LowEnergy)
    && (l.active.None? ==> forall i :: 0 <= i < MAX_LINKS ==> l.slots[i].conn == 0)
    && (l.active.Some? ==> l.active.value < MAX_LINKS && l.slots[l.active.value].conn != 0)
  }

  // The id of an empty slot, looked up or connected while there is an empty slot.
  predicate TakesEmptySlot(l: Links, e: Event)
  {
    (e.Up? || e.Lookup?) && e.conn == 0 && exists i :: 0 <= i < |l.slots| && l.slots[i].conn == 0
  }

  /** An event keeps the table good, exactly unless it takes an empty slot for a connection with the id zero. */
  lemma StepGood(l: Links, e: Event)
    requires Good(l)
    ensures Good(Step(l, e).0) <==> !TakesEmptySlot(l, e)
  {
    hide Find, FirstConnected;
  }

  lemma StepShape(l: Links, e: Event)
    requires l.active.Some? ==> l.active.value < |l.slots|
    ensures var (after, _) := Step(l, e);
      |after.slots| == |l.slots| && (after.active.Some? ==> after.active.value < |after.slots|)
  {
    hide Find, FirstConnected;
  }

  function Run(events: seq<Event>): (l: Links)
    ensures |l.slots| == MAX_LINKS && (l.active.Some? ==> l.active.value < MAX_LINKS)
  {
    if events == [] then Links([EMPTY, EMPTY], None)
    else
      var before, last := Run(events[..|events| - 1]), events[|events| - 1];
      StepShape(before, last);
      Step(before, last).0
  }

  ghost predicate NoneTaken(events: seq<Event>)
  {
    forall k :: 0 <= k < |events| ==> !TakesEmptySlot(Run(events[..k]), events[k])
  }

  lemma NoneTakenPrefix(events: seq<Event>)
    requires NoneTaken(events) && events != []
    ensures NoneTaken(events[..|events| - 1])
  {
    var front := events[..|events| - 1];
    forall k | 0 <= k < |front| ensures !TakesEmptySlot(Run(front[..k]), front[k]) {
      assert front[..k] == events[..k];
    }
  }

  /** So every run without such an event, in particular with ids other than zero, has distinct ids, and an active
      link exactly while some link is connected. */
  lemma {:induction false} RunGood(events: seq<Event>)
    requires NoneTaken(events)
    ensures Good(Run(events))
    decreases |events|
  {
    hide Step, Good, TakesEmptySlot;
    if events == [] {
      NothingUp();
    } else {
      var front := events[..|events| - 1];
      NoneTakenPrefix(events);
      RunGood(front);
      StepGood(Run(front), events[|events| - 1]);
    }
  }

  lemma NothingUp()
    ensures Good(Run([])) && forall conn :: conn != 0 ==> LinkOf(Run([]), conn) == None
  {
  }

  lemma IdsOfTwo(l: Links)
    requires Good(l)
    ensures var a, b := l.slots[0].conn, l.slots[1].conn;
      && Ids(l.slots) == IdsOf(a, b) && (a == b ==> a == 0)
      && |Ids(l.slots)| == (if a == 0 then 0 else 1) + (if b == 0 then 0 else 1)
  {
    var a, b := l.slots[0].conn, l.slots[1].conn;
    assert Ids(l.slots) == IdsOf(a, b);
  }

  // The ids in two slots.
  ghost function IdsOf(a: uint16, b: uint16): set<uint16>
  {
    (if a == 0 then {} else {a}) + (if b == 0 then {} else {b})
  }

  lemma IdsOfOneMore(a: uint16, b: uint16, conn: uint16)
    requires (a == b ==> a == 0) && conn != 0
    ensures conn in IdsOf(a, b) <==> conn == a || conn == b
    ensures a == 0 ==> IdsOf(conn, b) == IdsOf(a, b) + {conn}
    ensures b == 0 ==> IdsOf(a, conn) == IdsOf(a, b) + {conn}
    ensures a == conn || b == conn ==> IdsOf(a, b) == IdsOf(a, b) + {conn}
  {
  }

  lemma IdsOfOneLess(a: uint16, b: uint16, conn: uint16)
    requires (a == b ==> a == 0) && conn != 0
    ensures IdsOf(if a == conn then 0 else a, if b == conn then 0 else b) == IdsOf(a, b) - {conn}
  {
  }

  lemma NoZero(a: uint16, b: uint16)
    ensures 0 !in IdsOf(a, b)
  {
  }

  /** The table is a set of at most two ids. */
  lemma UpIds(l: Links, e: Event)
    requires Good(l) && !TakesEmptySlot(l, e) && e.Up?
    ensures var ((after, status), ids) := (Step(l, e), Ids(l.slots));
      if e.conn in ids || (e.conn != 0 && |ids| < MAX_LINKS)
      then status == Success && Ids(after.slots) == ids + {e.conn}
      else status == NoResources && after == l
  {
    hide Find, Ids, IdsOf, Step, Good, TakesEmptySlot;
    UpTwo(l, e);
    assert Good(Step(l, e).0) by {
      StepGood(l, e);
    }
    IdsOfTwo(l);
    IdsOfTwo(Step(l, e).0);
    NoZero(l.slots[0].conn, l.slots[1].conn);
    if e.conn != 0 {
      IdsOfOneMore(l.slots[0].conn, l.slots[1].conn, e.conn);
    }
  }

  // What a new connection does to the two slots.
  lemma UpTwo(l: Links, e: Event)
    requires Good(l) && !TakesEmptySlot(l, e) && e.Up?
    ensures |l.slots| == MAX_LINKS && (l.active.Some? ==> l.active.value < |l.slots|)
    ensures var ((after, status), a, b) := (Step(l, e), l.slots[0].conn, l.slots[1].conn);
      && |after.slots| == MAX_LINKS
      && var (c, d) := (after.slots[0].conn, after.slots[1].conn);
         if e.conn != 0 && (a == e.conn || (b != e.conn && a == 0)) then status == Success && c == e.conn && d == b
         else if e.conn != 0 && (b == e.conn || b == 0) then status == Success && c == a && d == e.conn
         else status == NoResources && after == l
  {
    hide Find;
  }

  lemma DownIds(l: Links, e: Event)
    requires Good(l) && e.Down?
    ensures var ((after, status), ids) := (Step(l, e), Ids(l.slots));
      && Ids(after.slots) == ids - {e.conn}
      && status == if e.conn in ids || (e.conn == 0 && |ids| < MAX_LINKS) then Success else OutOfSync
  {
    hide Find, FirstConnected, Ids, IdsOf, Step, Good, TakesEmptySlot;
    DownTwo(l, e);
    assert Good(Step(l, e).0) by {
      NotTaken(l, e);
      StepGood(l, e);
    }
    IdsOfTwo(l);
    IdsOfTwo(Step(l, e).0);
    var a, b := l.slots[0].conn, l.slots[1].conn;
    NoZero(a, b);
    if e.conn != 0 {
      IdsOfOneMore(a, b, e.conn);
      IdsOfOneLess(a, b, e.conn);
    }
  }

  lemma NotTaken(l: Links, e: Event)
    requires e.Down?
    ensures !TakesEmptySlot(l, e)
  {
  }

  // What a disconnection does to the two slots.
  lemma DownTwo(l: Links, e: Event)
    requires Good(l) && e.Down?
    ensures |l.slots| == MAX_LINKS && (l.active.Some? ==> l.active.value < |l.slots|)
    ensures var ((after, status), a, b) := (Step(l, e), l.slots[0].conn, l.slots[1].conn);
      && |after.slots| == MAX_LINKS
      && var (c, d) := (after.slots[0].conn, after.slots[1].conn);
         && c == (if a == e.conn then 0 else a) && d == (if b == e.conn then 0 else b)
         && status == if a == e.conn || b == e.conn then Success else OutOfSync
  {
    hide Find, FirstConnected;
  }

  lemma LookupIds(l: Links, e: Event)
    requires Good(l) && !TakesEmptySlot(l, e) && e.Lookup?
    ensures var (after, status) := Step(l, e);
      after.slots == l.slots && status == if e.conn in Ids(l.slots) then Success else OutOfSync
  {
    hide Find;
    IdsOfTwo(l);
  }

  /** After a success the active link is the one that came up or was looked up. */
  lemma ActiveIsLatest(l: Links, e: Event)
    requires Good(l) && !TakesEmptySlot(l, e) && (e.Up? || e.Lookup?)
    ensures var (after, status) := Step(l, e);
      if status == Success
      then after.active.Some? && after.slots[after.active.value].conn == e.conn
      else after.active == l.active
    ensures var (after, status) := Step(l, e);
      e.Up? && status == Success ==> after.slots[after.active.value] == Link(e.conn, e.acl, e.addr, LowEnergy, {})
  {
  }

  // What is known about a connection.
  function LinkOf(l: Links, conn: uint16): Option<Link>
  {
    var at := Find(l.slots, conn);
    if at < |l.slots| then Some(l.slots[at]) else None
  }

  /** An event of one connection leaves what is known about the others alone; a flag changes for the active link
      only. */
  lemma OthersStay(l: Links, e: Event, other: uint16)
    requires Good(l) && !TakesEmptySlot(l, e) && other != 0
    requires if e.SetFlag? then l.active.Some? ==> l.slots[l.active.value].conn != other else e.conn != other
    ensures LinkOf(Step(l, e).0, other) == LinkOf(l, other)
  {
    hide FirstConnected;
    StepGood(l, e);
  }

  // The id of the active link.
  function ActiveConn(l: Links): Option<uint16>
    requires l.active.Some? ==> l.active.value < |l.slots|
  {
    if l.active.Some? then Some(l.slots[l.active.value].conn) else None
  }

  // What a flag was last set to while this connection was the active link, since it last came up.
  function LastFlag(events: seq<Event>, conn: uint16, flag: Flag): bool
  {
    if events == [] then false
    else
      var front, last := events[..|events| - 1], events[|events| - 1];
      LastAfter(Run(front), last, conn, flag, LastFlag(front, conn, flag))
  }

  function LastAfter(l: Links, e: Event, conn: uint16, flag: Flag, before: bool): bool
    requires l.active.Some? ==> l.active.value < |l.slots|
  {
    match e
    case Up(c, _, _) => c != conn && before
    case Down(c) => c != conn && before
    case Lookup(_) => before
    case SetFlag(f, on) => if f == flag && ActiveConn(l) == Some(conn) then on else before
  }

  // What an event does to the link of its own connection.
  lemma OwnLink(l: Links, e: Event, conn: uint16)
    requires Good(l) && !TakesEmptySlot(l, e) && conn != 0
    requires if e.SetFlag? then ActiveConn(l) == Some(conn) else e.conn == conn
    ensures var (before, after) := (LinkOf(l, conn), LinkOf(Step(l, e).0, conn));
      match e
      case Up(_, _, _) => after.Some? ==> after.value.flags == {}
      case Down(_) => after.None?
      case Lookup(_) => after == before
      case SetFlag(flag, on) => before.Some? && after == Some(WithFlag(before.value, flag, on))
  {
    hide FirstConnected;
    StepGood(l, e);
  }

  // If this connection is up, its flag is `on`.
  predicate FlagIs(l: Links, conn: uint16, flag: Flag, on: bool)
  {
    LinkOf(l, conn).Some? ==> (flag in LinkOf(l, conn).value.flags <==> on)
  }

  lemma FlagStep(l: Links, e: Event, conn: uint16, flag: Flag, on: bool)
    requires Good(l) && !TakesEmptySlot(l, e) && conn != 0 && FlagIs(l, conn, flag, on)
    ensures FlagIs(Step(l, e).0, conn, flag, LastAfter(l, e, conn, flag, on))
  {
    hide LinkOf, TakesEmptySlot, Step;
    if (if e.SetFlag? then ActiveConn(l) == Some(conn) else e.conn == conn) {
      OwnLink(l, e, conn);
    } else {
      OthersStay(l, e, conn);
    }
  }

  // What the getters of the flags tell.
  predicate ActiveFlag(l: Links, flag: Flag)
    requires l.active.Some? ==> l.active.value < |l.slots|
  {
    l.active.Some? && flag in l.slots[l.active.value].flags
  }

  lemma ActiveFlagIs(l: Links, flag: Flag, conn: uint16, on: bool)
    requires Good(l) && FlagIs(l, conn, flag, on) && ActiveConn(l) == Some(conn)
    ensures ActiveFlag(l, flag) <==> on
  {
  }

  /** Flags over runs: a connected link has exactly those that were last set to true while it was the active link,
      since it last came up; and the getters tell this of the active link. */
  lemma {:induction false} FlagsAreLast(events: seq<Event>, conn: uint16, flag: Flag)
    requires NoneTaken(events) && conn != 0
    ensures FlagIs(Run(events), conn, flag, LastFlag(events, conn, flag))
    ensures ActiveConn(Run(events)) == Some(conn) ==> (ActiveFlag(Run(events), flag) <==> LastFlag(events, conn, flag))
    decreases |events|
  {
    hide FlagIs, Good, TakesEmptySlot, Step, LastAfter, ActiveFlag;
    if events == [] {
      NothingFlagged(conn, flag);
    } else {
      var n := |events| - 1;
      NoneTakenPrefix(events);
      RunGood(events[..n]);
      FlagsAreLast(events[..n], conn, flag);
      FlagStep(Run(events[..n]), events[n], conn, flag, LastFlag(events[..n], conn, flag));
    }
    RunGood(events);
    if ActiveConn(Run(events)) == Some(conn) {
      ActiveFlagIs(Run(events), flag, conn, LastFlag(events, conn, flag));
    }
  }

  lemma NothingFlagged(conn: uint16, flag: Flag)
    requires conn != 0
    ensures FlagIs(Run([]), conn, flag, false)
  {
    NothingUp();
  }

  // The connections of the attribute database.
  datatype Conn = Conn(inUse: bool, conn: uint16)

  ghost function HeldAt(c: Conn): multiset<uint16> { if c.inUse then multiset{c.conn} else multiset{} }

  ghost function Held(cs: seq<Conn>): multiset<uint16>
  {
    if cs == [] then multiset{} else Held(cs[..|cs| - 1]) + HeldAt(cs[|cs| - 1])
  }

  lemma {:induction false} HeldUpdate(cs: seq<Conn>, at: nat, c: Conn)
    requires at < |cs|
    ensures Held(cs[at := c]) + HeldAt(cs[at]) == Held(cs) + HeldAt(c)
    decreases |cs|
  {
    hide HeldAt;
    var n, ts := |cs| - 1, cs[at := c];
    assert Held(ts) == Held(ts[..n]) + HeldAt(ts[n]) && Held(cs) == Held(cs[..n]) + HeldAt(cs[n]);
    if at == n {
      assert ts[..n] == cs[..n];
      Swap(Held(cs[..n]), HeldAt(c), HeldAt(cs[n]));
    } else {
      HeldUpdate(cs[..n], at, c);
      assert ts[..n] == cs[..n][at := c];
      Swap(Held(ts[..n]), HeldAt(cs[n]), HeldAt(cs[at]));
      Swap(Held(cs[..n]), HeldAt(cs[n]), HeldAt(c));
    }
  }

  lemma HeldFree(cs: seq<Conn>, at: nat, conn: uint16)
    requires at < |cs| && cs[at] == Conn(true, conn)
    ensures Held(cs[at := Conn(false, conn)]) == Held(cs) - multiset{conn}
  {
    hide Held;
    HeldUpdate(cs, at, Conn(false, conn));
    assert Held(cs[at := Conn(false, conn)]) + multiset{conn} == Held(cs);
  }

  lemma Swap(a: multiset<uint16>, b: multiset<uint16>, c: multiset<uint16>)
    ensures (a + b) + c == (a + c) + b
  {
  }

  lemma {:induction false} HeldMember(cs: seq<Conn>, conn: uint16)
    ensures conn in Held(cs) <==> Conn(true, conn) in cs
    decreases |cs|
  {
    if cs != [] {
      var n := |cs| - 1;
      HeldMember(cs[..n], conn);
      assert cs == cs[..n] + [cs[n]];
    }
  }

  predicate AllInUse(cs: seq<Conn>) { forall i :: 0 <= i < |cs| ==> cs[i].inUse }

  lemma AllInUseStep(cs: seq<Conn>, c: Conn)
    ensures AllInUse(cs + [c]) <==> AllInUse(cs) && c.inUse
  {
    assert forall i :: 0 <= i < |cs| ==> (cs + [c])[i] == cs[i];
    assert (cs + [c])[|cs|] == c;
  }

  lemma {:induction false} HeldFull(cs: seq<Conn>)
    ensures |Held(cs)| <= |cs| && (|Held(cs)| == |cs| <==> AllInUse(cs))
    decreases |cs|
  {
    if cs != [] {
      var n := |cs| - 1;
      HeldFull(cs[..n]);
      AllInUseStep(cs[..n], cs[n]);
      assert cs == cs[..n] + [cs[n]];
    }
  }

  lemma {:induction false} HeldNone(cs: seq<Conn>)
    requires forall i :: 0 <= i < |cs| ==> !cs[i].inUse
    ensures Held(cs) == multiset{}
    decreases |cs|
  {
    if cs != [] {
      HeldNone(cs[..|cs| - 1]);
    }
  }

  class ConnectionTable {
    const conns: array<Conn>

    ghost predicate Valid() { conns.Length == MAX_CONNECTIONS }

    ghost function Contents(): multiset<uint16>
      reads conns
    {
      Held(conns[..])
    }

    constructor ()
      ensures Valid() && Contents() == multiset{} && fresh(conns)
    {
      conns := new Conn[MAX_CONNECTIONS](_ => Conn(false, 0));
      new;
      HeldNone(conns[..]);
    }

    // find_connection
    method Find(conn: uint16) returns (at: nat)
      requires Valid()
      ensures at <= MAX_CONNECTIONS && (at < MAX_CONNECTIONS <==> conn in Contents())
      ensures at < MAX_CONNECTIONS ==> conns[at] == Conn(true, conn)
    {
      HeldMember(conns[..], conn);
      at := 0;
      while at < MAX_CONNECTIONS
        invariant at <= MAX_CONNECTIONS && forall i :: 0 <= i < at ==> conns[i] != Conn(true, conn)
      {
        if conns[at].inUse && conns[at].conn == conn {
          assert conns[..][at] == Conn(true, conn);
          return;
        }
        at := at + 1;
      }
    }

    /** alloc_connection: it does not look for the id, so a table with room takes an id twice. */
    method Alloc(conn: uint16) returns (at: nat)
      requires Valid()
      modifies conns
      ensures at <= MAX_CONNECTIONS && (at < MAX_CONNECTIONS <==> |old(Contents())| < MAX_CONNECTIONS)
      ensures Contents() == Connected(old(Contents()), conn)
    {
      hide Held;
      HeldFull(conns[..]);
      at := 0;
      while at < MAX_CONNECTIONS
        invariant at <= MAX_CONNECTIONS && forall i :: 0 <= i < at ==> conns[i].inUse
        invariant conns[..] == old(conns[..])
      {
        if !conns[at].inUse {
          HeldUpdate(conns[..], at, Conn(true, conn));
          conns[at] := Conn(true, conn);
          assert conns[..] == old(conns[..])[at := Conn(true, conn)];
          return;
        }
        at := at + 1;
      }
    }

    /** free_connection */
    method Free(conn: uint16)
      requires Valid()
      modifies conns
      ensures Contents() == Disconnected(old(Contents()), conn)
    {
      hide Held;
      var at := Find(conn);
      if at < MAX_CONNECTIONS {
        HeldFree(conns[..], at, conn);
        conns[at] := conns[at].(inUse := false);
        assert conns[..] == old(conns[..])[at := Conn(false, conn)];
      }
    }
  }

  function Connected(held: multiset<uint16>, conn: uint16): multiset<uint16>
  {
    if |held| < MAX_CONNECTIONS then held + multiset{conn} else held
  }

  function Disconnected(held: multiset<uint16>, conn: uint16): multiset<uint16>
  {
    held - multiset{conn}
  }

  // The two tables, and the connection events that reach both of them.
  datatype Tables = Tables(links: Links, held: multiset<uint16>)

  datatype Change = Connect(conn: uint16, addr: seq<uint8>, acl: uint16) | Disconnect(conn: uint16)

  function Callback(t: Tables, c: Change): Tables
    requires t.links.active.Some? ==> t.links.active.value < |t.links.slots|
  {
    match c
    case Connect(conn, addr, acl) => Tables(Step(t.links, Up(conn, addr, acl)).0, Connected(t.held, conn))
    case Disconnect(conn) => Tables(Step(t.links, Down(conn)).0, Disconnected(t.held, conn))
  }

  class Host {
    const links: LinkTable
    const conns: ConnectionTable

    ghost predicate Valid()
      reads links
    {
      links.Valid() && conns.Valid()
    }

    ghost function View(): Tables
      reads links, links.slots, conns.conns
    {
      Tables(links.View(), conns.Contents())
    }

    constructor ()
      ensures Valid() && View() == Tables(Run([]), multiset{})
      ensures fresh(links) && fresh(links.slots) && fresh(conns.conns)
    {
      links := new LinkTable();
      conns := new ConnectionTable();
    }

    /** The connection event of gatt_db_btstack_callback. */
    method ConnectionStatus(c: Change)
      requires Valid()
      modifies links, links.slots, conns.conns
      ensures Valid() && View() == Callback(old(View()), c)
    {
      hide Step, Held, Connected, Disconnected;
      match c
      case Connect(conn, addr, acl) =>
        var status := links.LinkUp(conn, addr, acl);
        var at := conns.Alloc(conn);
      case Disconnect(conn) =>
        var status := links.LinkDown(conn);
        conns.Free(conn);
    }
  }

  function RunHost(changes: seq<Change>): (t: Tables)
    ensures |t.links.slots| == MAX_LINKS && (t.links.active.Some? ==> t.links.active.value < MAX_LINKS)
  {
    if changes == [] then Tables(Run([]), multiset{})
    else Callback(RunHost(changes[..|changes| - 1]), changes[|changes| - 1])
  }

  // The connections that are up.
  function Live(changes: seq<Change>): set<uint16>
  {
    if changes == [] then {}
    else
      var live := Live(changes[..|changes| - 1]);
      match changes[|changes| - 1]
      case Connect(conn, _, _) => live + {conn}
      case Disconnect(conn) => live - {conn}
  }

  // Ids are not zero, no connection comes up twice, and at most `bound` are up at a time.
  ghost predicate Matched(changes: seq<Change>, bound: nat)
  {
    forall k :: 0 <= k < |changes| ==>
      && changes[k].conn != 0
      && (changes[k].Connect? ==> changes[k].conn !in Live(changes[..k]) && |Live(changes[..k])| < bound)
  }

  lemma MatchedPrefix(changes: seq<Change>, bound: nat)
    requires Matched(changes, bound) && changes != []
    ensures Matched(changes[..|changes| - 1], bound)
  {
    var front := changes[..|changes| - 1];
    forall k | 0 <= k < |front| ensures front[..k] == changes[..k] {
    }
  }

  lemma ChangeGood(t: Tables, c: Change)
    requires Good(t.links) && c.conn != 0
    ensures var after := Callback(t, c);
      && Good(after.links)
      && Ids(after.links.slots) ==
           (if c.Disconnect? then Ids(t.links.slots) - {c.conn}
            else if c.conn in Ids(t.links.slots) || |Ids(t.links.slots)| < MAX_LINKS
            then Ids(t.links.slots) + {c.conn} else Ids(t.links.slots))
  {
    hide Good, Ids;
    match c
    case Connect(conn, addr, acl) =>
      StepGood(t.links, Up(conn, addr, acl));
      UpIds(t.links, Up(conn, addr, acl));
    case Disconnect(conn) =>
      StepGood(t.links, Down(conn));
      DownIds(t.links, Down(conn));
  }

  lemma ChangeHeld(held: multiset<uint16>, live: set<uint16>, conn: uint16)
    requires held == multiset(live)
    ensures conn !in live && |live| < MAX_CONNECTIONS ==> Connected(held, conn) == multiset(live + {conn})
    ensures Disconnected(held, conn) == multiset(live - {conn})
  {
    assert |held| == |live|;
  }

  lemma NoneLive()
    ensures var t := RunHost([]); Good(t.links) && Ids(t.links.slots) == {} && t.held == multiset{}
  {
  }

  /** With at most four connections the attribute database knows them all, each once; the links are some of
      them, and distinct. */
  lemma {:induction false} FourLive(changes: seq<Change>)
    requires Matched(changes, MAX_CONNECTIONS)
    ensures var t := RunHost(changes);
      && Good(t.links) && Ids(t.links.slots) <= Live(changes)
      && t.held == multiset(Live(changes)) && |Live(changes)| <= MAX_CONNECTIONS
    decreases |changes|
  {
    hide Good, Ids, Step, Connected, Disconnected;
    if changes == [] {
      NoneLive();
    } else {
      var n := |changes| - 1;
      MatchedPrefix(changes, MAX_CONNECTIONS);
      FourLive(changes[..n]);
      ChangeGood(RunHost(changes[..n]), changes[n]);
      ChangeHeld(RunHost(changes[..n]).held, Live(changes[..n]), changes[n].conn);
    }
  }

  lemma MatchedMore(changes: seq<Change>)
    requires Matched(changes, MAX_LINKS)
    ensures Matched(changes, MAX_CONNECTIONS)
  {
  }

  /** With at most two connections both tables hold exactly these. */
  lemma {:induction false} TwoLive(changes: seq<Change>)
    requires Matched(changes, MAX_LINKS)
    ensures var t := RunHost(changes);
      && Good(t.links) && Ids(t.links.slots) == Live(changes)
      && t.held == multiset(Live(changes)) && |Live(changes)| <= MAX_LINKS
    decreases |changes|
  {
    hide Good, Ids, Step, Connected, Disconnected;
    if changes == [] {
      NoneLive();
    } else {
      var n := |changes| - 1;
      MatchedPrefix(changes, MAX_LINKS);
      MatchedMore(changes);
      TwoLive(changes[..n]);
      FourLive(changes);
      ChangeGood(RunHost(changes[..n]), changes[n]);
    }
  }

  /** The tables part exactly when a third connection comes up. */
  lemma PartAtThird(changes: seq<Change>, conn: uint16, addr: seq<uint8>, acl: uint16)
    requires Matched(changes, MAX_LINKS) && conn != 0 && conn !in Live(changes)
    ensures var t := RunHost(changes + [Connect(conn, addr, acl)]);
      t.held == multiset(Ids(t.links.slots)) <==> |Live(changes)| < MAX_LINKS
  {
    hide Good, Ids, Step;
    var more, before := changes + [Connect(conn, addr, acl)], RunHost(changes);
    assert more[..|changes|] == changes;
    TwoLive(changes);
    ChangeGood(before, Connect(conn, addr, acl));
    ChangeHeld(before.held, Live(changes), conn);
    assert conn in RunHost(more).held;
  }

  /** The database never holds more than four, and while it holds four it takes none. */
  lemma {:induction false} AtMostFour(changes: seq<Change>)
    ensures |RunHost(changes).held| <= MAX_CONNECTIONS
    decreases |changes|
  {
    hide Step;
    if changes != [] {
      AtMostFour(changes[..|changes| - 1]);
      OneFewer(RunHost(changes[..|changes| - 1]).held, changes[|changes| - 1].conn);
    }
  }

  lemma OneFewer(held: multiset<uint16>, conn: uint16)
    ensures |held - multiset{conn}| <= |held|
  {
    if conn in held {
      assert held == (held - multiset{conn}) + multiset{conn};
    } else {
      assert held - multiset{conn} == held;
    }
  }

  // How often a connection is held, if the database has room for it each time: it comes up as often as it is
  // reported, and goes down once for each report while it is held.
  function Balance(changes: seq<Change>, conn: uint16): nat
  {
    if changes == [] then 0
    else
      var before, last := Balance(changes[..|changes| - 1], conn), changes[|changes| - 1];
      if last.conn != conn then before
      else if last.Connect? then before + 1
      else if before > 0 then before - 1 else 0
  }

  ghost predicate AlwaysRoom(changes: seq<Change>)
  {
    forall k :: 0 <= k < |changes| && changes[k].Connect? ==> |RunHost(changes[..k]).held| < MAX_CONNECTIONS
  }

  /** The database counts connections, matched or not: it holds each one as often as the balance says. */
  lemma {:induction false} HeldIsBalance(changes: seq<Change>, conn: uint16)
    requires AlwaysRoom(changes)
    ensures RunHost(changes).held[conn] == Balance(changes, conn)
    decreases |changes|
  {
    if changes != [] {
      var front := changes[..|changes| - 1];
      forall k | 0 <= k < |front| && front[k].Connect? ensures |RunHost(front[..k]).held| < MAX_CONNECTIONS {
        assert front[..k] == changes[..k];
      }
      HeldIsBalance(front, conn);
    }
  }

  /** So the tables part when a connection is reported up twice and then down: the database still holds it, and
      no link is left of it. */
  lemma TwiceUpStays(changes: seq<Change>, conn: uint16, addr: seq<uint8>, acl: uint16)
    requires Matched(changes, MAX_LINKS) && conn != 0 && conn !in Live(changes)
    ensures var t := RunHost(changes + [Connect(conn, addr, acl)] + [Connect(conn, addr, acl)] + [Disconnect(conn)]);
      t.held[conn] == 1 && conn !in Ids(t.links.slots)
  {
    hide Good, Ids, Step;
    var once := changes + [Connect(conn, addr, acl)];
    var twice := once + [Connect(conn, addr, acl)];
    var down := twice + [Disconnect(conn)];
    assert once[..|changes|] == changes && twice[..|once|] == once && down[..|twice|] == twice;
    TwoLive(changes);
    ChangeGood(RunHost(changes), Connect(conn, addr, acl));
    ChangeGood(RunHost(once), Connect(conn, addr, acl));
    ChangeGood(RunHost(twice), Disconnect(conn));
    assert RunHost(changes).held[conn] == 0;
  }
}
