/**
 The attribute database of `gatt_db.c`: attributes are only ever appended, services bring characteristics
 with their configuration descriptors, and a notification passes the configuration its client wrote.
 */
module GattDb {
  import opened Words
  import opened CccdTable

  const MAX_ATTRIBUTES := 192
  const UUID_CHARACTERISTIC: uint16 := 0x2803
  const UUID_CCCD: uint16 := 0x2902
  const PERM_READ: uint8 := 0x01
  const PERM_WRITE: uint8 := 0x10
  const INVALID_HANDLE: uint16 := 0

  datatype Uuid = Uuid16(short: uint16) | Uuid128(long: seq<uint8>)

  datatype Kind = Service | Characteristic | Value | Descriptor

  datatype Attribute = Attribute(
    handle: uint16, kind: Kind, uuid: Uuid, properties: uint8, permissions: uint8,
    maxLen: uint16, hasWrite: bool, cccd: uint16)

  // A characteristic as the caller of gatt_db_add_service describes it.
  datatype CharDef = CharDef(
    uuid: Uuid, properties: uint8, permissions: uint8, maxLen: uint16, hasWrite: bool, hasCccd: bool)

  datatype AttError = Success | InvalidHandle | WriteNotPermitted | InvalidLength | Unlikely | FromCallback(code: uint8)

  predicate IsCccd(a: Attribute) { a.kind == Descriptor && a.uuid == Uuid16(UUID_CCCD) }

  function ServiceAttribute(uuid: Uuid): Attribute
  {
    Attribute(0, Service, uuid, 0, PERM_READ, 0, false, 0)
  }

  function Declaration(d: CharDef): Attribute
  {
    Attribute(0, Characteristic, Uuid16(UUID_CHARACTERISTIC), d.properties, PERM_READ, 0, false, 0)
  }

  function ValueAttribute(d: CharDef): Attribute
  {
    Attribute(0, Value, d.uuid, d.properties, d.permissions, d.maxLen, d.hasWrite, 0)
  }

  const CCCD_ATTRIBUTE := Attribute(0, Descriptor, Uuid16(UUID_CCCD), 0, 0x11, 2, false, 0)

  // One more attribute gets the next handle.
  function Append(attrs: seq<Attribute>, a: Attribute): seq<Attribute>
    requires |attrs| < MAX_ATTRIBUTES
  {
    attrs + [a.(handle := |attrs| + 1)]
  }

  predicate Full(attrs: seq<Attribute>) { |attrs| >= MAX_ATTRIBUTES }

  // A characteristic: declaration, value, and the descriptor if there is room; false if it does not fit.
  function WithChar(attrs: seq<Attribute>, d: CharDef): (seq<Attribute>, bool)
  {
    if Full(attrs) then (attrs, false)
    else
      var declared := Append(attrs, Declaration(d));
      if Full(declared) then (declared, false)
      else
        var valued := Append(declared, ValueAttribute(d));
        if !d.hasCccd || Full(valued) then (valued, true)
        else (Append(valued, CCCD_ATTRIBUTE)[|attrs| + 1 := valued[|attrs| + 1].(cccd := |attrs| + 3)], true)
  }

  function WithChars(attrs: seq<Attribute>, ds: seq<CharDef>): (seq<Attribute>, bool)
    decreases |ds|
  {
    if ds == [] then (attrs, true)
    else
      var (more, ok) := WithChar(attrs, ds[0]);
      if ok then WithChars(more, ds[1..]) else (more, false)
  }

  function WithService(attrs: seq<Attribute>, uuid: Uuid, ds: seq<CharDef>): (seq<Attribute>, bool)
  {
    if Full(attrs) then (attrs, false) else WithChars(Append(attrs, ServiceAttribute(uuid)), ds)
  }

  // Handle i + 1 is at index i; a value that has a descriptor is directly in front of it.
  ghost predicate GoodAt(attrs: seq<Attribute>, i: nat)
    requires i < |attrs|
  {
    && attrs[i].handle == i + 1
    && (attrs[i].cccd != INVALID_HANDLE ==>
          attrs[i].kind == Value && attrs[i].cccd == i + 2 <= |attrs| && IsCccd(attrs[i + 1]))
  }

  ghost predicate Consistent(attrs: seq<Attribute>)
  {
    |attrs| <= MAX_ATTRIBUTES && forall i :: 0 <= i < |attrs| ==> GoodAt(attrs, i)
  }

  lemma AppendConsistent(attrs: seq<Attribute>, a: Attribute)
    requires Consistent(attrs) && !Full(attrs) && a.cccd == INVALID_HANDLE
    ensures Consistent(Append(attrs, a)) && attrs <= Append(attrs, a)
  {
    var more := Append(attrs, a);
    forall i | 0 <= i < |more| ensures GoodAt(more, i) {
      assert i < |attrs| ==> GoodAt(attrs, i);
    }
  }

  // Linking a value to the descriptor that follows it.
  lemma LinkConsistent(attrs: seq<Attribute>, at: nat)
    requires Consistent(attrs) && at + 1 < |attrs| && attrs[at].kind == Value && IsCccd(attrs[at + 1])
    ensures Consistent(attrs[at := attrs[at].(cccd := at + 2)])
  {
    var linked := attrs[at := attrs[at].(cccd := at + 2)];
    forall i | 0 <= i < |attrs| ensures GoodAt(linked, i) {
      assert GoodAt(attrs, i);
    }
  }

  lemma CharConsistent(attrs: seq<Attribute>, d: CharDef)
    requires Consistent(attrs)
    ensures var (more, ok) := WithChar(attrs, d);
      && Consistent(more) && attrs <= more
      && (ok <==> |attrs| + 2 <= MAX_ATTRIBUTES)
      && (ok ==> more[|attrs| + 1].kind == Value && more[|attrs| + 1].uuid == d.uuid)
      && (ok && d.hasCccd ==> (more[|attrs| + 1].cccd != INVALID_HANDLE <==> |attrs| + 3 <= MAX_ATTRIBUTES))
  {
    if |attrs| + 2 <= MAX_ATTRIBUTES {
      var declared := Append(attrs, Declaration(d));
      var valued := Append(declared, ValueAttribute(d));
      AppendConsistent(attrs, Declaration(d));
      AppendConsistent(declared, ValueAttribute(d));
      if d.hasCccd && !Full(valued) {
        AppendConsistent(valued, CCCD_ATTRIBUTE);
        LinkConsistent(Append(valued, CCCD_ATTRIBUTE), |attrs| + 1);
      }
    } else if !Full(attrs) {
      AppendConsistent(attrs, Declaration(d));
    }
  }

  lemma {:induction false} CharsConsistent(attrs: seq<Attribute>, ds: seq<CharDef>)
    requires Consistent(attrs)
    ensures Consistent(WithChars(attrs, ds).0) && attrs <= WithChars(attrs, ds).0
    decreases |ds|
  {
    if ds != [] {
      CharConsistent(attrs, ds[0]);
      if WithChar(attrs, ds[0]).1 {
        CharsConsistent(WithChar(attrs, ds[0]).0, ds[1..]);
      }
    }
  }

  /** Services keep the database consistent and every earlier attribute, so handles are never reused. */
  lemma ServiceConsistent(attrs: seq<Attribute>, uuid: Uuid, ds: seq<CharDef>)
    requires Consistent(attrs)
    ensures Consistent(WithService(attrs, uuid, ds).0) && attrs <= WithService(attrs, uuid, ds).0
  {
    if !Full(attrs) {
      var more := Append(attrs, ServiceAttribute(uuid));
      AppendConsistent(attrs, ServiceAttribute(uuid));
      CharsConsistent(more, ds);
    }
  }

  // The attributes that a characteristic takes, and where the k-th one of a service starts.
  function Size(d: CharDef): nat { if d.hasCccd then 3 else 2 }

  function Offset(ds: seq<CharDef>, k: nat): nat
    requires k <= |ds|
  {
    if k == 0 then 0 else Offset(ds, k - 1) + Size(ds[k - 1])
  }

  // A declaration, then the value as the caller described it, linked to the descriptor if there is to be one.
  ghost predicate Laid(attrs: seq<Attribute>, at: nat, d: CharDef)
  {
    && at + Size(d) <= |attrs| <= MAX_ATTRIBUTES
    && attrs[at] == Attribute(at + 1, Characteristic, Uuid16(0x2803), d.properties, 0x01, 0, false, 0)
    && attrs[at + 1] == Attribute(at + 2, Value, d.uuid, d.properties, d.permissions, d.maxLen, d.hasWrite,
                                  if d.hasCccd then at + 3 else 0)
    && (d.hasCccd ==> attrs[at + 2] == Attribute(at + 3, Descriptor, Uuid16(0x2902), 0, 0x11, 2, false, 0))
  }

  lemma LaidStays(attrs: seq<Attribute>, more: seq<Attribute>, at: nat, d: CharDef)
    requires Laid(attrs, at, d) && attrs <= more && |more| <= MAX_ATTRIBUTES
    ensures Laid(more, at, d)
  {
    assert forall i :: 0 <= i < |attrs| ==> more[i] == attrs[i];
  }

  lemma CharLaid(attrs: seq<Attribute>, d: CharDef)
    requires Consistent(attrs) && |attrs| + Size(d) <= MAX_ATTRIBUTES
    ensures var (more, ok) := WithChar(attrs, d);
      ok && |more| == |attrs| + Size(d) && Laid(more, |attrs|, d)
  {
    var (more, ok) := WithChar(attrs, d);
    var n := |attrs|;
    var declared := Append(attrs, Declaration(d));
    var valued := Append(declared, ValueAttribute(d));
    assert valued[n] == declared[n] && more[n] == valued[n];
    assert d.hasCccd ==> more[n + 1] == valued[n + 1].(cccd := n + 3);
  }

  lemma {:induction false} OffsetRest(ds: seq<CharDef>, k: nat)
    requires k < |ds|
    ensures Offset(ds, k + 1) == Size(ds[0]) + Offset(ds[1..], k)
  {
    if k > 0 {
      OffsetRest(ds, k - 1);
    } else {
      assert Offset(ds, 1) == Offset(ds, 0) + Size(ds[0]);
    }
  }

  ghost predicate AllLaid(attrs: seq<Attribute>, n: nat, ds: seq<CharDef>)
  {
    forall k :: 0 <= k < |ds| ==> Laid(attrs, n + Offset(ds, k), ds[k])
  }

  lemma OffsetZero(ds: seq<CharDef>)
    ensures Offset(ds, 0) == 0
  {
  }

  lemma LaidOneMore(n: nat, ds: seq<CharDef>, first: seq<Attribute>, more: seq<Attribute>)
    requires ds != [] && |first| == n + Size(ds[0]) && Laid(first, n, ds[0]) && first <= more
    requires AllLaid(more, |first|, ds[1..]) && |more| <= MAX_ATTRIBUTES
    ensures AllLaid(more, n, ds)
  {
    hide Laid, Offset;
    OffsetZero(ds);
    forall k | 0 <= k < |ds| ensures Laid(more, n + Offset(ds, k), ds[k]) {
      if k == 0 {
        LaidStays(first, more, n, ds[0]);
      } else {
        OffsetRest(ds, k - 1);
        assert Laid(more, |first| + Offset(ds[1..], k - 1), ds[1..][k - 1]);
      }
    }
  }

  /** Layout: with room for all of them, the characteristics of a service stand one behind the other, each with
      the fields of its own description, so the handle of every value is known in advance. */
  lemma {:induction false} CharsLaid(attrs: seq<Attribute>, ds: seq<CharDef>)
    requires Consistent(attrs) && |attrs| + Offset(ds, |ds|) <= MAX_ATTRIBUTES
    ensures var (more, ok) := WithChars(attrs, ds);
      ok && |more| == |attrs| + Offset(ds, |ds|) && AllLaid(more, |attrs|, ds)
    decreases |ds|
  {
    hide Laid, AllLaid, Consistent, WithChar;
    if ds == [] {
      NoneLaid(attrs);
    } else {
      OffsetRest(ds, |ds| - 1);
      CharLaid(attrs, ds[0]);
      CharConsistent(attrs, ds[0]);
      var first := WithChar(attrs, ds[0]).0;
      CharsLaid(first, ds[1..]);
      CharsConsistent(first, ds[1..]);
      LaidOneMore(|attrs|, ds, first, WithChars(first, ds[1..]).0);
    }
  }

  lemma NoneLaid(attrs: seq<Attribute>)
    ensures AllLaid(attrs, |attrs|, [])
  {
  }

  lemma ServiceLaid(attrs: seq<Attribute>, uuid: Uuid, ds: seq<CharDef>)
    requires Consistent(attrs) && |attrs| + 1 + Offset(ds, |ds|) <= MAX_ATTRIBUTES
    ensures var (more, ok) := WithService(attrs, uuid, ds);
      && ok && |more| == |attrs| + 1 + Offset(ds, |ds|) && AllLaid(more, |attrs| + 1, ds)
      && more[|attrs|] == Attribute(|attrs| + 1, Service, uuid, 0, 0x01, 0, false, 0)
  {
    hide AllLaid, Offset, WithChars;
    var start := Append(attrs, ServiceAttribute(uuid));
    AppendConsistent(attrs, ServiceAttribute(uuid));
    CharsLaid(start, ds);
    CharsConsistent(start, ds);
    assert WithChars(start, ds).0[|attrs|] == start[|attrs|];
  }

  /** Whether the characteristics of a service fit is decided by the last one: it needs room for its declaration and its
      value behind the others; its descriptor is left out if it has no room. */
  lemma {:induction false} CharsFit(attrs: seq<Attribute>, ds: seq<CharDef>)
    requires Consistent(attrs)
    ensures WithChars(attrs, ds).1 <==> ds == [] || |attrs| + Offset(ds, |ds| - 1) + 2 <= MAX_ATTRIBUTES
    decreases |ds|
  {
    hide Consistent, Offset;
    if ds != [] {
      OffsetZero(ds);
      CharConsistent(attrs, ds[0]);
      var first := WithChar(attrs, ds[0]).0;
      if |ds| > 1 {
        OffsetRest(ds, |ds| - 2);
        if WithChar(attrs, ds[0]).1 {
          CharsFit(first, ds[1..]);
        }
      }
    }
  }

  lemma ServiceFits(attrs: seq<Attribute>, uuid: Uuid, ds: seq<CharDef>)
    requires Consistent(attrs)
    ensures WithService(attrs, uuid, ds).1 <==>
      |attrs| + 1 + (if ds == [] then 0 else Offset(ds, |ds| - 1) + 2) <= MAX_ATTRIBUTES
  {
    hide WithChars, Offset;
    if !Full(attrs) {
      AppendConsistent(attrs, ServiceAttribute(uuid));
      CharsFit(Append(attrs, ServiceAttribute(uuid)), ds);
    }
  }

  // The descriptors that clients can write.
  ghost function CccdHandles(attrs: seq<Attribute>): set<uint16>
  {
    set i | 0 <= i < |attrs| && IsCccd(attrs[i]) :: attrs[i].handle
  }

  lemma InHandles(attrs: seq<Attribute>, at: nat)
    requires Consistent(attrs) && at < |attrs| && IsCccd(attrs[at])
    ensures at + 1 in CccdHandles(attrs)
  {
    assert GoodAt(attrs, at);
  }

  // Only these descriptors were ever written.
  ghost predicate Known(events: seq<Event>, attrs: seq<Attribute>)
  {
    Configures(events, CccdHandles(attrs))
  }

  lemma KnownGrows(events: seq<Event>, attrs: seq<Attribute>, more: seq<Attribute>)
    requires Known(events, attrs) && attrs <= more
    ensures Known(events, more)
  {
    forall h | h in CccdHandles(attrs) ensures h in CccdHandles(more) {
      var i :| 0 <= i < |attrs| && IsCccd(attrs[i]) && attrs[i].handle == h;
      assert more[i] == attrs[i];
    }
  }

  // An event other than a write to an unknown descriptor.
  lemma KnownStep(events: seq<Event>, e: Event, attrs: seq<Attribute>)
    requires Known(events, attrs) && (e.Configure? ==> e.key.handle in CccdHandles(attrs))
    ensures Known(events + [e], attrs) && Run(events + [e]) == Happen(Run(events), e).0
  {
    assert (events + [e])[..|events|] == events;
  }

  lemma {:induction false} EvenOffset(ds: seq<CharDef>, k: nat)
    requires k <= |ds| && forall i :: 0 <= i < |ds| ==> ds[i].hasCccd
    ensures Offset(ds, k) == 3 * k
  {
    if k > 0 {
      EvenOffset(ds, k - 1);
    }
  }

  // The descriptors of a database with one service, whose characteristics all have one.
  function EveryThird(n: nat): (handles: set<uint16>)
    requires n <= 60
    ensures |handles| == n && forall h :: h in handles ==> h <= 3 * n + 1
  {
    if n == 0 then {} else EveryThird(n - 1) + {3 * n + 1}
  }

  lemma DescriptorIn(attrs: seq<Attribute>, at: nat, d: CharDef)
    requires Laid(attrs, at, d) && d.hasCccd
    ensures at + 3 in CccdHandles(attrs)
  {
    assert IsCccd(attrs[at + 2]) && attrs[at + 2].handle == at + 3;
  }

  lemma DescriptorAt(attrs: seq<Attribute>, ds: seq<CharDef>, k: nat)
    requires k < |ds| && AllLaid(attrs, 1, ds) && forall i :: 0 <= i < |ds| ==> ds[i].hasCccd
    ensures 3 * k + 4 in CccdHandles(attrs)
  {
    hide Laid, CccdHandles, Offset;
    EvenOffset(ds, k);
    assert Laid(attrs, 1 + Offset(ds, k), ds[k]);
    DescriptorIn(attrs, 1 + 3 * k, ds[k]);
  }

  lemma {:induction false} DescriptorsOf(attrs: seq<Attribute>, ds: seq<CharDef>, n: nat)
    requires n <= |ds| <= 60 && AllLaid(attrs, 1, ds) && forall i :: 0 <= i < |ds| ==> ds[i].hasCccd
    ensures EveryThird(n) <= CccdHandles(attrs)
  {
    hide AllLaid, CccdHandles;
    if n > 0 {
      DescriptorsOf(attrs, ds, n - 1);
      DescriptorAt(attrs, ds, n - 1);
    }
  }

  /** What the table has room for: with four links the clients' writes all take effect, in every run, exactly if the
      database has at most 32 configurable characteristics. */
  lemma WritesTakeEffect(attrs: seq<Attribute>)
    ensures (forall events :: Known(events, attrs) && FewLinks(events, MAX_CONNECTIONS) ==> AllSucceed(events))
      <==> |CccdHandles(attrs)| <= MAX_CCCD
  {
    hide CccdHandles, FewLinks, Configures, AllSucceed;
    RoomIsExact(CccdHandles(attrs), MAX_CONNECTIONS);
    if |CccdHandles(attrs)| <= MAX_CCCD {
      forall events | Known(events, attrs) && FewLinks(events, MAX_CONNECTIONS) ensures AllSucceed(events) {
        assert Sensible(events, CccdHandles(attrs), MAX_CONNECTIONS);
      }
    } else {
      var events :| Sensible(events, CccdHandles(attrs), MAX_CONNECTIONS) && !AllSucceed(events);
      assert Known(events, attrs) && FewLinks(events, MAX_CONNECTIONS);
    }
  }

  /** A database with more is reachable: one service of 33 configurable characteristics and four connections have a run
      in which 128 clients' writes take effect and the next one, though it is answered with success, does not: the
      notification bit that the client wrote last still reads as off. */
  lemma OverflowReachable(uuid: Uuid, ds: seq<CharDef>) returns (events: seq<Event>, k: Key)
    requires |ds| == MAX_CCCD + 1 && forall i :: 0 <= i < |ds| ==> ds[i].hasCccd
    ensures Loses(events, k, CccdHandles(WithService([], uuid, ds).0), MAX_CONNECTIONS)
  {
    hide Loses, WithService, CccdHandles, AllLaid;
    EvenOffset(ds, |ds|);
    ServiceLaid([], uuid, ds);
    var handles := CccdHandles(WithService([], uuid, ds).0);
    DescriptorsOf(WithService([], uuid, ds).0, ds, |ds|);
    Subset(EveryThird(|ds|), handles);
    events, k := TableOverflows(handles, MAX_CONNECTIONS);
  }

  lemma ReadsLast(events: seq<Event>, attrs: seq<Attribute>, k: Key)
    requires Known(events, attrs)
    ensures FewLinks(events, MAX_CONNECTIONS) && |CccdHandles(attrs)| <= MAX_CCCD ==>
      Read(Run(events), k) == LastConfigured(events, k)
  {
    hide Run, CccdHandles, LastConfigured, FewLinks, Configures, Read;
    if FewLinks(events, MAX_CONNECTIONS) && |CccdHandles(attrs)| <= MAX_CCCD {
      TableIsMap(events, CccdHandles(attrs), MAX_CONNECTIONS);
    }
  }

  // A two-byte value, low byte first.
  function Word(low: int, high: int): int { low + 256 * high }

  lemma BytesOf(low: uint8, high: uint8)
    ensures var value := Word(low, high);
      0 <= value < U16 && value % 256 == low && value / 256 == high && value % 2 == low % 2
  {
  }

  class Db {
    const table: Table
    const attributes: array<Attribute>
    var count: uint16
    var nextHandle: uint16
    ghost var events: seq<Event>

    ghost predicate Valid()
      reads this, table, table.entries, attributes
    {
      && table.Valid() && attributes.Length == MAX_ATTRIBUTES
      && count <= MAX_ATTRIBUTES && nextHandle == count + 1
      && Consistent(attributes[..count])
      && table.Contents() == Run(events) && Known(events, attributes[..count])
    }

    ghost function Attrs(): seq<Attribute>
      requires count <= attributes.Length
      reads this, attributes
    {
      attributes[..count]
    }

    // The handle of a configuration descriptor, by its kind and its UUID.
    ghost predicate IsCccdHandle(handle: uint16)
      requires count <= attributes.Length
      reads this, attributes
    {
      1 <= handle <= count && attributes[handle - 1].kind == Descriptor && attributes[handle - 1].uuid == Uuid16(0x2902)
    }

    constructor ()
      ensures Valid() && Attrs() == [] && events == [] && fresh(table) && fresh(table.entries) && fresh(attributes)
    {
      table := new Table();
      attributes := new Attribute[MAX_ATTRIBUTES](_ => ServiceAttribute(Uuid16(0)));
      count, nextHandle, events := 0, 1, [];
    }

    /** find_attribute searches linearly and agrees with direct indexing; 192 stands for a null result. */
    method FindAttribute(handle: uint16) returns (at: nat)
      requires Valid()
      ensures at == if 1 <= handle <= count then handle - 1 else MAX_ATTRIBUTES
    {
      for i := 0 to count
        invariant !(1 <= handle <= i)
      {
        assert GoodAt(attributes[..count], i);
        if attributes[i].handle == handle {
          return i;
        }
      }
      return MAX_ATTRIBUTES;
    }

    // alloc_attribute, with the fields its callers set.
    method Alloc(a: Attribute) returns (handle: uint16)
      requires attributes.Length == MAX_ATTRIBUTES && count <= MAX_ATTRIBUTES && nextHandle == count + 1
      modifies `count, `nextHandle, attributes
      ensures count <= MAX_ATTRIBUTES && nextHandle == count + 1
      ensures old(Full(Attrs())) ==> handle == INVALID_HANDLE && Attrs() == old(Attrs())
      ensures !old(Full(Attrs())) ==> handle == old(count) + 1 && Attrs() == Append(old(Attrs()), a)
    {
      if count >= MAX_ATTRIBUTES {
        return INVALID_HANDLE;
      }
      attributes[count] := a.(handle := nextHandle);
      handle := nextHandle;
      count := count + 1;
      nextHandle := Wrap16(nextHandle + 1);
    }

    // The table and the history stay as they are when attributes are added.
    twostate lemma StaysValid()
      requires old(Valid()) && attributes.Length == MAX_ATTRIBUTES
      requires unchanged(`events) && unchanged(table.entries)
      requires count <= MAX_ATTRIBUTES && nextHandle == count + 1
      requires Consistent(Attrs()) && old(Attrs()) <= Attrs()
      ensures Valid()
    {
      KnownGrows(events, old(Attrs()), Attrs());
      assert table.entries[..] == old(table.entries[..]);
    }

    method AddCharacteristic(d: CharDef) returns (ok: bool)
      requires Valid()
      modifies `count, `nextHandle, attributes
      ensures Valid() && (Attrs(), ok) == WithChar(old(Attrs()), d)
    {
      hide Consistent, Known, CccdHandles, Run, Distinct, MapOf;
      CharConsistent(Attrs(), d);
      ghost var before := Attrs();
      var declared := Alloc(Declaration(d));
      if declared == INVALID_HANDLE {
        StaysValid();
        return false;
      }
      var value := Alloc(ValueAttribute(d));
      if value == INVALID_HANDLE {
        StaysValid();
        return false;
      }
      if d.hasCccd {
        var cccd := Alloc(CCCD_ATTRIBUTE);
        if cccd != INVALID_HANDLE {
          ghost var three := Attrs();
          attributes[value - 1] := attributes[value - 1].(cccd := cccd);
          assert Attrs() == three[value - 1 := three[value - 1].(cccd := cccd)];
        }
      }
      StaysValid();
      return true;
    }

    /** gatt_db_add_service */
    method AddService(uuid: Uuid, ds: seq<CharDef>) returns (ok: bool)
      requires Valid()
      modifies `count, `nextHandle, attributes
      ensures Valid() && (Attrs(), ok) == WithService(old(Attrs()), uuid, ds)
      ensures old(Attrs()) <= Attrs()
    {
      ServiceConsistent(Attrs(), uuid, ds);
      ghost var before := Attrs();
      assert ds[0..] == ds;
      var service := Alloc(ServiceAttribute(uuid));
      if service == INVALID_HANDLE {
        return false;
      }
      AppendConsistent(before, ServiceAttribute(uuid));
      StaysValid();
      for i := 0 to |ds|
        invariant Valid() && WithService(before, uuid, ds) == WithChars(Attrs(), ds[i..])
      {
        assert ds[i..][1..] == ds[i + 1..];
        var added := AddCharacteristic(ds[i]);
        if !added {
          return false;
        }
      }
      return true;
    }

    method OnConnect(conn: uint16)
      requires Valid()
      modifies `events
      ensures Valid() && events == old(events) + [Connect(conn)] && table.Contents() == old(table.Contents())
    {
      hide Consistent, Known, Distinct, MapOf, CccdHandles, Run;
      KnownStep(events, Connect(conn), attributes[..count]);
      events := events + [Connect(conn)];
    }

    method OnDisconnect(conn: uint16)
      requires Valid()
      modifies `events, table.entries
      ensures Valid() && events == old(events) + [Disconnect(conn)]
    {
      hide Consistent, Known, Distinct, MapOf, CccdHandles, Run;
      KnownStep(events, Disconnect(conn), attributes[..count]);
      table.Clear(conn);
      events := events + [Disconnect(conn)];
    }

    /** gatt_db_handle_write_request: a write of two bytes to a configuration descriptor is a configuration event, low
        byte first, and reports success. It takes effect exactly if the table knows the descriptor on this connection or
        has room, or if the value is zero, as it reads without an entry. No other write reaches the table. `answer` is
        what the write callback of the attribute would return. */
    method HandleWriteRequest(conn: uint16, handle: uint16, data: seq<uint8>, offset: uint16, answer: uint8)
      returns (r: AttError)
      requires Valid() && |data| < U16
      modifies `events, table.entries
      ensures Valid()
      ensures !(1 <= handle <= count) ==> r == InvalidHandle
      ensures IsCccdHandle(handle) ==> r == if |data| == 2 then Success else InvalidLength
      ensures events == old(events) +
        if IsCccdHandle(handle) && |data| == 2 then [Configure(Key(conn, handle), Word(data[0], data[1]))] else []
      ensures IsCccdHandle(handle) && |data| == 2 ==>
        var k, value := Key(conn, handle), Read(table.Contents(), Key(conn, handle));
        && table.Contents() == Happen(old(table.Contents()), Configure(k, Word(data[0], data[1]))).0
        && (value % 256 == data[0] && value / 256 == data[1] <==>
              k in old(table.Contents()) || |old(table.Contents())| < SLOTS || data[0] == data[1] == 0)
        && forall l :: l != k ==> Read(table.Contents(), l) == Read(old(table.Contents()), l)
      ensures !(IsCccdHandle(handle) && |data| == 2) ==> table.Contents() == old(table.Contents())
      ensures 1 <= handle <= count && !IsCccdHandle(handle) ==>
        var a := attributes[handle - 1];
        r == if a.permissions / 0x10 % 2 == 0 then WriteNotPermitted
             else if a.hasWrite then FromCallback(answer)
             else if offset + |data| > a.maxLen then InvalidLength
             else Unlikely
    {
      hide Consistent, Known, CccdHandles, Run, MapOf, Distinct;
      var at := FindAttribute(handle);
      if at == MAX_ATTRIBUTES {
        return InvalidHandle;
      }
      var a := attributes[at];
      if a.kind == Descriptor && a.uuid == Uuid16(UUID_CCCD) {
        if |data| != 2 {
          return InvalidLength;
        }
        var value := Word(data[0], data[1]);
        BytesOf(data[0], data[1]);
        InHandles(attributes[..count], at);
        KnownStep(events, Configure(Key(conn, handle), value), attributes[..count]);
        var ok := table.Set(conn, handle, value);
        events := events + [Configure(Key(conn, handle), value)];
        return Success;
      }
      if !Permits(a.permissions, PERM_WRITE) {
        return WriteNotPermitted;
      }
      if a.hasWrite {
        return FromCallback(answer);
      }
      if offset + |data| > a.maxLen {
        return InvalidLength;
      }
      return Unlikely;
    }

    method NotificationsEnabled(conn: uint16, cccd: uint16) returns (on: bool)
      requires Valid()
      ensures on <==> Read(table.Contents(), Key(conn, cccd)) % 2 == 1
    {
      var at := table.Find(conn, cccd);
      on := at < SLOTS && table.entries[at].value % 2 != 0;
    }

    /** gatt_db_send_notification: `passed` says whether the stack is asked to send. For a value with a descriptor that
        is the case exactly when the table has the notification bit on this connection: with at most 4 links up at a
        time and at most 32 descriptors, exactly when the client has last written it. */
    method SendNotification(conn: uint16, handle: uint16) returns (found: bool, passed: bool)
      requires Valid()
      ensures found <==> 1 <= handle <= count
      ensures passed ==> found
      ensures found && attributes[handle - 1].cccd == INVALID_HANDLE ==> passed
      ensures found && attributes[handle - 1].cccd != INVALID_HANDLE ==>
        && attributes[handle - 1].cccd == handle + 1 <= count && IsCccd(attributes[handle])
        && (passed <==> Read(table.Contents(), Key(conn, handle + 1)) % 2 == 1)
        && (FewLinks(events, MAX_CONNECTIONS) && |CccdHandles(Attrs())| <= MAX_CCCD ==>
              (passed <==> LastConfigured(events, Key(conn, handle + 1)) % 2 == 1))
    {
      var at := FindAttribute(handle);
      if at == MAX_ATTRIBUTES {
        return false, false;
      }
      hide Run, MapOf, Distinct, CccdHandles, LastConfigured, FewLinks, Configures, Read;
      var cccd := attributes[at].cccd;
      if cccd != INVALID_HANDLE {
        assert GoodAt(attributes[..count], at);
        passed := NotificationsEnabled(conn, cccd);
        ReadsLast(events, Attrs(), Key(conn, cccd));
        return true, passed;
      }
      return true, true;
    }
  }

  lemma LinkedIs(attrs: seq<Attribute>, at: nat)
    requires Consistent(attrs) && at < |attrs| && attrs[at].cccd != INVALID_HANDLE
    ensures attrs[at].cccd == at + 2 <= |attrs| && IsCccd(attrs[at + 1])
  {
    assert GoodAt(attrs, at);
  }

  // The lowest bit is in the low byte.
  lemma LowestBit(value: uint16, low: uint8)
    requires value % 256 == low
    ensures value % 2 == low % 2
  {
  }

  /** From the client's bytes to the gate: after a write of two bytes to the descriptor of a value, if it takes effect,
      a notification of this value on this connection passes exactly if the lowest bit of the first byte is set. */
  method WriteThenNotify(db: Db, conn: uint16, handle: uint16, low: uint8, high: uint8) returns (passed: bool)
    requires db.Valid() && 1 <= handle < db.count && db.attributes[handle - 1].cccd != INVALID_HANDLE
    modifies db`events, db.table.entries
    ensures db.Valid()
    ensures var k := Key(conn, handle + 1);
      k in old(db.table.Contents()) || |old(db.table.Contents())| < SLOTS || low == high == 0 ==>
        (passed <==> low % 2 == 1)
  {
    hide Run, MapOf, Distinct, CccdHandles, LastConfigured, FewLinks, Configures, Happen, Consistent, Word;
    LinkedIs(db.Attrs(), handle - 1);
    BytesOf(low, high);
    var answer := db.HandleWriteRequest(conn, handle + 1, [low, high], 0, 0);
    LowestBit(Read(db.table.Contents(), Key(conn, handle + 1)), Read(db.table.Contents(), Key(conn, handle + 1)) % 256);
    var found;
    found, passed := db.SendNotification(conn, handle);
  }

  // A bit of an 8-bit mask; `bit` is a power of two.
  predicate Permits(mask: uint8, bit: uint8)
    requires bit > 0
  {
    (mask / bit) % 2 == 1
  }
}
