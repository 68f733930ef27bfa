/**
 The table of client characteristic configurations in `gatt_db.c` (section 3.3.3.3 of Vol 3, Part G of the
 Bluetooth Core Specification): 128 slots with a flag, which together are a map from connection and
 descriptor handle to a value.
 */
module CccdTable {
  import opened Words

  const MAX_CONNECTIONS := 4
  const MAX_CCCD := 32
  const SLOTS := 128

  datatype Entry = Entry(inUse: bool, conn: uint16, handle: uint16, value: uint16)

  datatype Key = Key(conn: uint16, handle: uint16)

  predicate Is(e: Entry, k: Key) { e.inUse && Key(e.conn, e.handle) == k }

  ghost predicate Distinct(es: seq<Entry>)
  {
    forall i, j :: 0 <= i < j < |es| && es[i].inUse && es[j].inUse ==>
      Key(es[i].conn, es[i].handle) != Key(es[j].conn, es[j].handle)
  }

  ghost function Keys(es: seq<Entry>): set<Key>
  {
    set i | 0 <= i < |es| && es[i].inUse :: Key(es[i].conn, es[i].handle)
  }

  ghost function ValueAt(es: seq<Entry>, k: Key): uint16
    requires k in Keys(es)
  {
    var i :| 0 <= i < |es| && Is(es[i], k);
    es[i].value
  }

  // The map that the slots stand for.
  ghost function MapOf(es: seq<Entry>): map<Key, uint16>
  {
    map k | k in Keys(es) :: ValueAt(es, k)
  }

  // A characteristic that was never configured reads as zero.
  function Read(m: map<Key, uint16>, k: Key): uint16
  {
    if k in m then m[k] else 0
  }

  lemma ValueIs(es: seq<Entry>, i: nat)
    requires Distinct(es) && i < |es| && es[i].inUse
    ensures var k := Key(es[i].conn, es[i].handle); k in MapOf(es) && MapOf(es)[k] == es[i].value
  {
    var k := Key(es[i].conn, es[i].handle);
    assert Is(es[i], k);
    assert forall j :: 0 <= j < |es| && Is(es[j], k) ==> j == i;
  }

  lemma SlotOf(es: seq<Entry>, k: Key) returns (i: nat)
    requires k in Keys(es)
    ensures i < |es| && Is(es[i], k)
  {
    i :| 0 <= i < |es| && es[i].inUse && Key(es[i].conn, es[i].handle) == k;
  }

  lemma NoSlot(es: seq<Entry>, k: Key)
    requires forall i :: 0 <= i < |es| ==> !Is(es[i], k)
    ensures k !in Keys(es)
  {
  }

  // Equal maps, entry by entry.
  lemma SameMap(es: seq<Entry>, m: map<Key, uint16>)
    requires Distinct(es)
    requires forall i :: 0 <= i < |es| && es[i].inUse ==>
      var k := Key(es[i].conn, es[i].handle); k in m && m[k] == es[i].value
    requires forall k :: k in m ==> exists i :: 0 <= i < |es| && Is(es[i], k)
    ensures MapOf(es) == m
  {
    forall k | k in MapOf(es) ensures k in m && m[k] == MapOf(es)[k] {
      var i := SlotOf(es, k);
      ValueIs(es, i);
    }
  }

  // As many keys as slots in use: the table is full exactly when the map has 128 keys.
  lemma {:induction false} KeysFill(es: seq<Entry>)
    requires Distinct(es)
    ensures |Keys(es)| <= |es|
    ensures |Keys(es)| == |es| <==> forall i :: 0 <= i < |es| ==> es[i].inUse
    decreases |es|
  {
    if es != [] {
      var n := |es| - 1;
      var front, last := es[..n], es[n];
      KeysFill(front);
      var k := Key(last.conn, last.handle);
      if last.inUse {
        assert Keys(es) == Keys(front) + {k};
        assert k !in Keys(front);
      } else {
        assert Keys(es) == Keys(front);
      }
      assert forall i :: 0 <= i < n ==> front[i] == es[i];
    }
  }

  class Table {
    const entries: array<Entry>

    ghost predicate Valid()
      reads this, entries
    {
      entries.Length == SLOTS && Distinct(entries[..])
    }

    ghost function Contents(): map<Key, uint16>
      reads this, entries
    {
      MapOf(entries[..])
    }

    constructor ()
      ensures Valid() && Contents() == map[] && fresh(entries)
    {
      entries := new Entry[SLOTS](_ => Entry(false, 0, 0, 0));
      new;
      assert Keys(entries[..]) == {};
    }

    // find_cccd_entry: the index of the entry, or 128.
    method Find(conn: uint16, handle: uint16) returns (at: nat)
      requires Valid()
      ensures at <= SLOTS
      ensures at < SLOTS <==> Key(conn, handle) in Contents()
      ensures at < SLOTS ==> Is(entries[at], Key(conn, handle)) && entries[at].value == Contents()[Key(conn, handle)]
    {
      var k := Key(conn, handle);
      at := 0;
      while at < SLOTS
        invariant at <= SLOTS && forall i :: 0 <= i < at ==> !Is(entries[i], k)
      {
        if entries[at].inUse && entries[at].conn == conn && entries[at].handle == handle {
          ValueIs(entries[..], at);
          return;
        }
        at := at + 1;
      }
      NoSlot(entries[..], k);
    }

    method Get(conn: uint16, handle: uint16) returns (value: uint16)
      requires Valid()
      ensures value == Read(Contents(), Key(conn, handle))
    {
      var at := Find(conn, handle);
      value := if at < SLOTS then entries[at].value else 0;
    }

    // alloc_cccd_entry: the index of a new entry with value zero, or 128.
    method Alloc(conn: uint16, handle: uint16) returns (at: nat)
      requires Valid() && Key(conn, handle) !in Contents()
      modifies entries
      ensures Valid() && at <= SLOTS
      ensures at < SLOTS <==> |old(Contents())| < SLOTS
      ensures at < SLOTS ==> entries[at] == Entry(true, conn, handle, 0) && !old(entries[at].inUse)
      ensures forall i :: 0 <= i < SLOTS && i != at ==> entries[i] == old(entries[i])
    {
      KeysFill(entries[..]);
      assert Contents().Keys == Keys(entries[..]);
      at := 0;
      while at < SLOTS
        invariant at <= SLOTS && forall i :: 0 <= i < at ==> entries[i].inUse
        invariant entries[..] == old(entries[..])
      {
        if !entries[at].inUse {
          assert forall i :: 0 <= i < SLOTS && entries[i].inUse ==>
            Key(entries[i].conn, entries[i].handle) in Keys(entries[..]);
          entries[at] := Entry(true, conn, handle, 0);
          return;
        }
        at := at + 1;
      }
    }

    /** gatt_db_set_cccd: it fails only for a new key in a full table. */
    method Set(conn: uint16, handle: uint16, value: uint16) returns (ok: bool)
      requires Valid()
      modifies entries
      ensures Valid()
      ensures ok <==> Key(conn, handle) in old(Contents()) || |old(Contents())| < SLOTS
      ensures Contents() == if ok then old(Contents())[Key(conn, handle) := value] else old(Contents())
    {
      ghost var m, k := Contents(), Key(conn, handle);
      ghost var was := entries[..];
      var at := Find(conn, handle);
      if at == SLOTS {
        at := Alloc(conn, handle);
        if at == SLOTS {
          assert entries[..] == was;
          return false;
        }
      }
      entries[at] := entries[at].(value := value);
      assert entries[..] == was[at := Entry(true, conn, handle, value)];
      SetUpdates(was, at, k, value);
      return true;
    }

    /** gatt_db_clear_cccd: erases exactly the entries of one connection. */
    method Clear(conn: uint16)
      requires Valid()
      modifies entries
      ensures Valid()
      ensures Contents() == map k | k in old(Contents()) && k.conn != conn :: old(Contents())[k]
    {
      ghost var was := entries[..];
      for i := 0 to SLOTS
        invariant forall j :: 0 <= j < SLOTS ==>
          entries[j] == if j < i && was[j].inUse && was[j].conn == conn then was[j].(inUse := false) else was[j]
      {
        if entries[i].inUse && entries[i].conn == conn {
          entries[i] := entries[i].(inUse := false);
        }
      }
      ClearErases(was, entries[..], conn);
    }
  }

  // Writing a value into the slot of a key, old or new.
  lemma SetUpdates(es: seq<Entry>, at: nat, k: Key, value: uint16)
    requires Distinct(es) && at < |es| && (Is(es[at], k) || (!es[at].inUse && k !in Keys(es)))
    ensures var ts := es[at := Entry(true, k.conn, k.handle, value)]; Distinct(ts) && MapOf(ts) == MapOf(es)[k := value]
  {
    var ts, m := es[at := Entry(true, k.conn, k.handle, value)], MapOf(es)[k := value];
    forall i | 0 <= i < |ts| && ts[i].inUse && i != at
      ensures var l := Key(ts[i].conn, ts[i].handle); l != k && l in m && m[l] == ts[i].value
    {
      assert Key(es[i].conn, es[i].handle) in Keys(es);
      ValueIs(es, i);
    }
    forall l | l in m ensures exists i :: 0 <= i < |ts| && Is(ts[i], l) {
      if l == k {
        assert Is(ts[at], k);
      } else {
        var i := SlotOf(es, l);
        assert Is(ts[i], l);
      }
    }
    SameMap(ts, m);
  }

  lemma ClearErases(es: seq<Entry>, ts: seq<Entry>, conn: uint16)
    requires Distinct(es) && |ts| == |es|
    requires forall j :: 0 <= j < |es| ==>
      ts[j] == if es[j].inUse && es[j].conn == conn then es[j].(inUse := false) else es[j]
    ensures Distinct(ts) && MapOf(ts) == map k | k in MapOf(es) && k.conn != conn :: MapOf(es)[k]
  {
    var m := map k | k in MapOf(es) && k.conn != conn :: MapOf(es)[k];
    forall i | 0 <= i < |ts| && ts[i].inUse
      ensures var l := Key(ts[i].conn, ts[i].handle); l in m && m[l] == ts[i].value
    {
      ValueIs(es, i);
    }
    forall l | l in m ensures exists i :: 0 <= i < |ts| && Is(ts[i], l) {
      var i := SlotOf(es, l);
      assert Is(ts[i], l);
    }
    SameMap(ts, m);
  }

  // Pairs of a connection and a handle.
  ghost function Pairs(conns: set<uint16>, handles: set<uint16>): set<Key>
  {
    set c, h | c in conns && h in handles :: Key(c, h)
  }

  lemma {:induction false} PairsOfOne(c: uint16, handles: set<uint16>)
    ensures |Pairs({c}, handles)| == |handles|
    decreases handles
  {
    if handles == {} {
      assert Pairs({c}, handles) == {};
    } else {
      var h :| h in handles;
      PairsOfOne(c, handles - {h});
      assert Pairs({c}, handles) == Pairs({c}, handles - {h}) + {Key(c, h)};
    }
  }

  lemma {:induction false} PairsCount(conns: set<uint16>, handles: set<uint16>)
    ensures |Pairs(conns, handles)| == |conns| * |handles|
    decreases conns
  {
    if conns == {} {
      assert Pairs(conns, handles) == {};
    } else {
      var c :| c in conns;
      var rest, one := Pairs(conns - {c}, handles), Pairs({c}, handles);
      PairsCount(conns - {c}, handles);
      PairsOfOne(c, handles);
      assert Pairs(conns, handles) == rest + one && rest !! one;
      assert |conns - {c}| == |conns| - 1;
      MulStep(|conns| - 1, |handles|);
    }
  }

  lemma MulStep(n: nat, m: nat)
    ensures (n + 1) * m == n * m + m
  {
  }

  lemma {:induction false} Subset<T>(small: set<T>, big: set<T>)
    requires small <= big
    ensures |small| <= |big|
    decreases small
  {
    if small != {} {
      var x :| x in small;
      Subset(small - {x}, big - {x});
    }
  }

  lemma MulLe(n: nat, links: nat, m: nat)
    requires n <= links
    ensures n * m <= links * m
  {
  }

  /** Pigeonhole: with at most 128 pairs of a connection and a configurable characteristic, a table that holds only
      their entries has a slot left for any of their entries that it does not hold. */
  lemma NeverFull(m: map<Key, uint16>, conns: set<uint16>, handles: set<uint16>, k: Key)
    requires |conns| * |handles| <= SLOTS
    requires m.Keys <= Pairs(conns, handles) && k in Pairs(conns, handles)
    ensures k in m || |m| < SLOTS
  {
    PairsCount(conns, handles);
    if k !in m {
      Subset(m.Keys + {k}, Pairs(conns, handles));
    }
  }

  // What happens to the table: links come and go, and clients configure characteristics.
  datatype Event = Connect(conn: uint16) | Disconnect(conn: uint16) | Configure(key: Key, value: uint16)

  // The table after an event, as Table.Set and Table.Clear leave it, and whether the event succeeded.
  function Happen(m: map<Key, uint16>, e: Event): (map<Key, uint16>, bool)
  {
    match e
    case Connect(_) => (m, true)
    case Disconnect(c) => (map k | k in m && k.conn != c :: m[k], true)
    case Configure(k, v) => if k in m || |m| < SLOTS then (m[k := v], true) else (m, false)
  }

  // The connections that are up after some events.
  function Live(events: seq<Event>): set<uint16>
  {
    if events == [] then {}
    else
      var live := Live(events[..|events| - 1]);
      match events[|events| - 1]
      case Connect(c) => live + {c}
      case Disconnect(c) => live - {c}
      case Configure(_, _) => live
  }

  /** A connection is up exactly if an event brought it up and none after that took it down. */
  lemma {:induction false} LiveSince(events: seq<Event>, c: uint16)
    ensures c in Live(events) <==>
      exists i :: 0 <= i < |events| && events[i] == Connect(c) &&
        forall j :: i < j < |events| ==> events[j] != Disconnect(c)
    decreases |events|
  {
    if events != [] {
      var n := |events| - 1;
      LiveSince(events[..n], c);
      assert forall i :: 0 <= i < n ==> events[..n][i] == events[i];
      if c in Live(events[..n]) {
        var i :| 0 <= i < n && events[..n][i] == Connect(c)
          && forall j :: i < j < n ==> events[..n][j] != Disconnect(c);
        assert events[i] == Connect(c);
      }
    }
  }

  // A run of the table: what it holds in the end.
  function Run(events: seq<Event>): map<Key, uint16>
  {
    if events == [] then map[] else Happen(Run(events[..|events| - 1]), events[|events| - 1]).0
  }

  // What a client last configured, since its connection last came down.
  function LastConfigured(events: seq<Event>, k: Key): uint16
  {
    if events == [] then 0
    else
      match events[|events| - 1]
      case Configure(l, v) => if l == k then v else LastConfigured(events[..|events| - 1], k)
      case Disconnect(c) => if c == k.conn then 0 else LastConfigured(events[..|events| - 1], k)
      case Connect(_) => LastConfigured(events[..|events| - 1], k)
  }

  // Clients write over live connections, at most `links` at a time.
  ghost predicate FewLinks(events: seq<Event>, links: nat)
  {
    forall i :: 0 <= i < |events| ==>
      && |Live(events[..i])| <= links
      && (events[i].Configure? ==> events[i].key.conn in Live(events[..i]))
  }

  // They configure only these characteristics.
  ghost predicate Configures(events: seq<Event>, handles: set<uint16>)
  {
    forall i :: 0 <= i < |events| && events[i].Configure? ==> events[i].key.handle in handles
  }

  ghost predicate Sensible(events: seq<Event>, handles: set<uint16>, links: nat)
  {
    FewLinks(events, links) && Configures(events, handles)
  }

  lemma SensiblePrefix(events: seq<Event>, handles: set<uint16>, links: nat, n: nat)
    requires Sensible(events, handles, links) && n <= |events|
    ensures Sensible(events[..n], handles, links)
  {
    forall i | 0 <= i < n ensures events[..n][..i] == events[..i] {
    }
  }

  // The table agrees with the history, and holds entries of live connections only.
  ghost predicate Agrees(m: map<Key, uint16>, events: seq<Event>, handles: set<uint16>)
  {
    && m.Keys <= Pairs(Live(events), handles)
    && forall k :: Read(m, k) == LastConfigured(events, k)
  }

  lemma ConfigureAgrees(m: map<Key, uint16>, events: seq<Event>, handles: set<uint16>, k: Key, v: uint16)
    requires Agrees(m, events, handles) && k.conn in Live(events) && k.handle in handles
    ensures Agrees(m[k := v], events + [Configure(k, v)], handles)
  {
    var more, after := events + [Configure(k, v)], m[k := v];
    assert more[..|events|] == events;
    forall l | l in after ensures l in Pairs(Live(more), handles) {
      assert l != k ==> l in m && l in Pairs(Live(events), handles);
    }
    forall l ensures Read(after, l) == LastConfigured(more, l) {
      assert Read(m, l) == LastConfigured(events, l);
    }
  }

  lemma LinkAgrees(m: map<Key, uint16>, events: seq<Event>, handles: set<uint16>, e: Event)
    requires Agrees(m, events, handles) && (e.Connect? || e.Disconnect?)
    ensures Agrees(Happen(m, e).0, events + [e], handles)
  {
    assert (events + [e])[..|events|] == events;
    var after := Happen(m, e).0;
    forall k | k in after ensures k in Pairs(Live(events + [e]), handles) {
      assert k in m && k in Pairs(Live(events), handles);
    }
    forall k ensures Read(after, k) == LastConfigured(events + [e], k) {
      assert Read(m, k) == LastConfigured(events, k);
    }
  }

  // A client configures a known characteristic: it succeeds.
  lemma ConfigureFits(m: map<Key, uint16>, events: seq<Event>, handles: set<uint16>, links: nat, k: Key, v: uint16)
    requires Agrees(m, events, handles) && |Live(events)| <= links && links * |handles| <= SLOTS
    requires k.conn in Live(events) && k.handle in handles
    ensures Happen(m, Configure(k, v)) == (m[k := v], true)
  {
    hide Live, LastConfigured;
    MulLe(|Live(events)|, links, |handles|);
    NeverFull(m, Live(events), handles, k);
  }

  lemma {:induction false} RunHolds(events: seq<Event>, handles: set<uint16>, links: nat)
    requires Sensible(events, handles, links) && links * |handles| <= SLOTS
    ensures Agrees(Run(events), events, handles)
    decreases |events|
  {
    hide Agrees, Happen, Live;
    if events == [] {
      NothingHappened(handles);
    } else {
      var n := |events| - 1;
      var front, last := events[..n], events[n];
      assert events == front + [last];
      SensiblePrefix(events, handles, links, n);
      RunHolds(front, handles, links);
      if last.Configure? {
        ConfigureFits(Run(front), front, handles, links, last.key, last.value);
        ConfigureAgrees(Run(front), front, handles, last.key, last.value);
      } else {
        LinkAgrees(Run(front), front, handles, last);
      }
    }
  }

  lemma NothingHappened(handles: set<uint16>)
    ensures Agrees(map[], [], handles)
  {
  }

  // Every event so far succeeded.
  ghost predicate AllSucceed(events: seq<Event>)
  {
    forall i :: 0 <= i < |events| ==> Happen(Run(events[..i]), events[i]).1
  }

  /** In every run with at most 128 pairs of a live connection and a configurable characteristic, as four links and
      32 characteristics make, no write of a configuration ever fails, and every characteristic reads as its client
      last configured it. */
  lemma TableIsMap(events: seq<Event>, handles: set<uint16>, links: nat)
    requires Sensible(events, handles, links) && links * |handles| <= SLOTS
    ensures AllSucceed(events)
    ensures forall k :: Read(Run(events), k) == LastConfigured(events, k)
  {
    hide Happen, Run, Live;
    RunHolds(events, handles, links);
    forall i | 0 <= i < |events| ensures Happen(Run(events[..i]), events[i]).1 {
      SensiblePrefix(events, handles, links, i);
      RunHolds(events[..i], handles, links);
      if events[i].Configure? {
        ConfigureFits(Run(events[..i]), events[..i], handles, links, events[i].key, events[i].value);
      } else {
        LinksHappen(Run(events[..i]), events[i]);
      }
    }
  }

  lemma LinksHappen(m: map<Key, uint16>, e: Event)
    ensures !e.Configure? ==> Happen(m, e).1
  {
  }

  // A run in which all went well, and what it came to.
  ghost predicate Reaches(events: seq<Event>, handles: set<uint16>, links: nat, conns: set<uint16>, m: map<Key, uint16>)
  {
    Sensible(events, handles, links) && AllSucceed(events) && Live(events) == conns && Run(events) == m
  }

  lemma NothingReached(handles: set<uint16>, links: nat)
    ensures Reaches([], handles, links, {}, map[])
  {
  }

  lemma SensibleMore(events: seq<Event>, e: Event, handles: set<uint16>, links: nat)
    requires Sensible(events, handles, links) && |Live(events)| <= links
    requires e.Configure? ==> e.key.conn in Live(events) && e.key.handle in handles
    ensures Sensible(events + [e], handles, links)
  {
    hide Live;
    var more := events + [e];
    forall i | 0 <= i < |more|
      ensures |Live(more[..i])| <= links
      ensures more[i].Configure? ==> more[i].key.conn in Live(more[..i]) && more[i].key.handle in handles
    {
      assert more[..i] == if i < |events| then events[..i] else events;
    }
  }

  lemma SucceedMore(events: seq<Event>, e: Event)
    requires AllSucceed(events) && Happen(Run(events), e).1
    ensures AllSucceed(events + [e])
  {
    hide Happen, Run;
    var more := events + [e];
    forall i | 0 <= i < |more| ensures Happen(Run(more[..i]), more[i]).1 {
      assert more[..i] == if i < |events| then events[..i] else events;
    }
  }

  lemma OneMore(events: seq<Event>, e: Event, handles: set<uint16>, links: nat)
    requires Sensible(events, handles, links) && |Live(events)| <= links
    requires e.Configure? ==> e.key.conn in Live(events) && e.key.handle in handles
    ensures Sensible(events + [e], handles, links) && Run(events + [e]) == Happen(Run(events), e).0
    ensures AllSucceed(events) && Happen(Run(events), e).1 ==> AllSucceed(events + [e])
  {
    hide Happen, Sensible, AllSucceed, Live;
    SensibleMore(events, e, handles, links);
    assert (events + [e])[..|events|] == events;
    if AllSucceed(events) && Happen(Run(events), e).1 {
      SucceedMore(events, e);
    }
  }

  lemma LiveAfter(events: seq<Event>, e: Event)
    ensures e.Configure? ==> Live(events + [e]) == Live(events)
    ensures e.Connect? ==> Live(events + [e]) == Live(events) + {e.conn}
  {
    assert (events + [e])[..|events|] == events;
  }

  // Connections come up one after the other.
  lemma {:induction false} AllUp(conns: set<uint16>, handles: set<uint16>, links: nat) returns (events: seq<Event>)
    requires |conns| <= links
    ensures Reaches(events, handles, links, conns, map[])
    decreases conns
  {
    hide Sensible, AllSucceed, Live, Run;
    if conns == {} {
      events := [];
      NothingReached(handles, links);
    } else {
      var c :| c in conns;
      var front := AllUp(conns - {c}, handles, links);
      OneMore(front, Connect(c), handles, links);
      LiveAfter(front, Connect(c));
      assert conns - {c} + {c} == conns;
      events := front + [Connect(c)];
    }
  }

  lemma NewOne<T>(few: set<T>, many: set<T>) returns (x: T)
    requires |few| < |many|
    ensures x in many && x !in few
  {
    if many <= few {
      Subset(many, few);
    }
    x :| x in many && x !in few;
  }

  // Their clients write one new configuration after the other.
  lemma {:induction false} Fill(conns: set<uint16>, handles: set<uint16>, links: nat, n: nat)
    returns (events: seq<Event>, m: map<Key, uint16>)
    requires |conns| <= links && n <= SLOTS && n <= |Pairs(conns, handles)|
    ensures Reaches(events, handles, links, conns, m) && m.Keys <= Pairs(conns, handles) && |m| == n
    decreases n
  {
    hide Sensible, AllSucceed, Live, Run, Happen;
    if n == 0 {
      events := AllUp(conns, handles, links);
      m := map[];
    } else {
      var front, before := Fill(conns, handles, links, n - 1);
      var k := NewOne(before.Keys, Pairs(conns, handles));
      OneMore(front, Configure(k, 1), handles, links);
      LiveAfter(front, Configure(k, 1));
      Grows(before, k);
      events, m := front + [Configure(k, 1)], before[k := 1];
    }
  }

  lemma Grows(m: map<Key, uint16>, k: Key)
    requires k !in m && |m| < SLOTS
    ensures Happen(m, Configure(k, 1)) == (m[k := 1], true)
    ensures m[k := 1].Keys == m.Keys + {k} && |m[k := 1]| == |m| + 1
  {
    assert m[k := 1].Keys == m.Keys + {k};
    assert |m[k := 1].Keys| == |m.Keys| + 1;
  }

  // All went well until the last write, which was lost: what the client turned on still reads as off.
  ghost predicate Loses(events: seq<Event>, k: Key, handles: set<uint16>, links: nat)
  {
    var lost := events + [Configure(k, 1)];
    && Sensible(lost, handles, links) && AllSucceed(events)
    && !Happen(Run(events), Configure(k, 1)).1
    && Read(Run(lost), k) == 0 && LastConfigured(lost, k) == 1
  }

  // As many connection ids.
  function FirstConns(n: nat): (conns: set<uint16>)
    requires n <= U16
    ensures |conns| == n && forall c :: c in conns ==> c < n
  {
    if n == 0 then {} else FirstConns(n - 1) + {n - 1}
  }

  lemma LostWrite(events: seq<Event>, k: Key)
    requires k !in Run(events) && |Run(events)| == SLOTS
    ensures !Happen(Run(events), Configure(k, 1)).1
    ensures Read(Run(events + [Configure(k, 1)]), k) == 0 && LastConfigured(events + [Configure(k, 1)], k) == 1
  {
    assert (events + [Configure(k, 1)])[..|events|] == events;
  }

  /** More pairs than that overflow: there is a run in which 128 writes succeed and the next one is lost. */
  lemma TableOverflows(handles: set<uint16>, links: nat) returns (events: seq<Event>, k: Key)
    requires links <= U16 && links * |handles| > SLOTS
    ensures Loses(events, k, handles, links)
  {
    hide Sensible, AllSucceed, Live, Run, Happen, LastConfigured;
    var conns := FirstConns(links);
    PairsCount(conns, handles);
    ghost var m;
    events, m := Fill(conns, handles, links, SLOTS);
    k := NewOne(m.Keys, Pairs(conns, handles));
    OneMore(events, Configure(k, 1), handles, links);
    LostWrite(events, k);
  }

  lemma LosesNotAll(events: seq<Event>, k: Key, handles: set<uint16>, links: nat)
    requires Loses(events, k, handles, links)
    ensures exists lost :: Sensible(lost, handles, links) && !AllSucceed(lost)
  {
    hide Sensible, Run, Happen;
    var lost := events + [Configure(k, 1)];
    assert lost[..|events|] == events && lost[|events|] == Configure(k, 1);
    assert Sensible(lost, handles, links) && !AllSucceed(lost);
  }

  /** So the room is exact: no write fails in any run over so many links and these characteristics, exactly if
      there are at most 128 pairs. (There are 2^16 connection ids.) */
  lemma RoomIsExact(handles: set<uint16>, links: nat)
    requires links <= U16
    ensures (forall events :: Sensible(events, handles, links) ==> AllSucceed(events)) <==> links * |handles| <= SLOTS
  {
    hide Sensible, AllSucceed;
    if links * |handles| <= SLOTS {
      forall events | Sensible(events, handles, links) ensures AllSucceed(events) {
        TableIsMap(events, handles, links);
      }
    } else {
      var events, k := TableOverflows(handles, links);
      LosesNotAll(events, k, handles, links);
    }
  }
}
