/**
 The advertising-data builder and parser of `gap_config.c`, and the second parser and the default
 advertising data of `bt_init.c`, as the C functions fill their arrays.
 */
module AdvBuilder {
  import opened Words
  import opened AdvData

  const MAX_DATA := 254

  const TYPE_FLAGS: uint8 := 0x01
  const TYPE_INCOMPLETE_UUID16: uint8 := 0x02
  const TYPE_COMPLETE_UUID16: uint8 := 0x03
  const TYPE_SHORT_NAME: uint8 := 0x08
  const TYPE_COMPLETE_NAME: uint8 := 0x09
  const TYPE_TX_POWER: uint8 := 0x0A
  const TYPE_SERVICE_DATA: uint8 := 0x16
  const TYPE_APPEARANCE: uint8 := 0x19
  const TYPE_BROADCAST_NAME: uint8 := 0x30
  const TYPE_MANUFACTURER: uint8 := 0xFF

  // A 16-bit value, least significant byte first.
  function Le16(x: uint16): seq<uint8> { [x % 256, x / 256] }

  function Le16s(xs: seq<uint16>): (bytes: seq<uint8>)
    ensures |bytes| == 2 * |xs|
  {
    if xs == [] then [] else Le16s(xs[..|xs| - 1]) + Le16(xs[|xs| - 1])
  }

  // 16-bit values in a row, the least significant byte first.
  function ReadWords(bytes: seq<uint8>): seq<int>
    requires |bytes| % 2 == 0
  {
    seq(|bytes| / 2, i requires 0 <= i < |bytes| / 2 => Word(bytes[2 * i], bytes[2 * i + 1]))
  }

  function Word(low: int, high: int): int { low + 256 * high }

  /** A reader gets the UUIDs of a list back. */
  lemma {:induction false} WordsRoundTrip(xs: seq<uint16>)
    ensures |ReadWords(Le16s(xs))| == |xs| && forall i :: 0 <= i < |xs| ==> ReadWords(Le16s(xs))[i] == xs[i]
    decreases |xs|
  {
    if xs != [] {
      var n := |xs| - 1;
      WordsRoundTrip(xs[..n]);
      var front, all := Le16s(xs[..n]), Le16s(xs);
      forall i | 0 <= i < |xs| ensures ReadWords(all)[i] == xs[i] {
        if i < n {
          assert ReadWords(front)[i] == xs[i];
          assert all[2 * i] == front[2 * i] && all[2 * i + 1] == front[2 * i + 1];
        }
      }
    }
  }

  // A name as the builder takes it: its length is kept in eight bits.
  function ShortenedName(name: seq<uint8>): seq<uint8> { name[..Wrap8(|name|)] }

  // An addition did to the bytes what Extend says.
  ghost predicate Added(before: seq<uint8>, after: seq<uint8>, x: Structure, maxLength: nat, ok: bool)
  {
    after == Extend(before, x, maxLength).0 && ok == Extend(before, x, maxLength).1
  }

  // The length check of gap_adv_data_add_uuid16, on the size that it keeps in eight bits.
  predicate AcceptsUuids(length: nat, maxLength: nat, count: nat)
  {
    length + 2 + Wrap8(2 * count) <= maxLength
  }

  /** The list of UUIDs stays inside the array of 254 bytes exactly for at most 127 of them, or if the check, which
      sees the wrapped size, refuses them. An empty builder with all its room refuses just 127 and 255 of them. */
  lemma UuidsStayInside(length: nat, maxLength: nat, count: uint8)
    requires length <= maxLength <= MAX_DATA && 0 < count
    ensures (AcceptsUuids(length, maxLength, count) ==> length + 2 + 2 * count <= MAX_DATA)
      <==> count <= 127 || !AcceptsUuids(length, maxLength, count)
    ensures AcceptsUuids(0, MAX_DATA, count) <==> count != 127 && count != 255
  {
  }

  lemma Fits8(n: nat)
    ensures n < U8 ==> Wrap8(n) == n
  {
  }

  lemma HeaderJoins(before: seq<uint8>, headed: seq<uint8>,
          adType: uint8, tag: seq<uint8>, data: seq<uint8>, given: bool)
    requires |tag| + |data| <= 254 && headed == before + ([|tag| + |data| + 1, adType] + tag)
    ensures headed + (if given then data else []) == before + HeaderBytes(adType, tag, data, given)
  {
  }

  class Builder {
    const data: array<uint8>
    var length: uint16
    var maxLength: uint16

    ghost predicate Valid()
      reads this
    {
      data.Length == MAX_DATA && length <= maxLength <= MAX_DATA
    }

    ghost function Bytes(): (b: seq<uint8>)
      requires Valid()
      reads this, data
      ensures |b| == length
    {
      data[..length]
    }

    constructor (maxLength: uint16)
      ensures Valid() && Bytes() == [] && fresh(data)
      ensures this.maxLength == Min(maxLength, MAX_DATA)
    {
      data := new uint8[MAX_DATA](_ => 0);
      length := 0;
      this.maxLength := if maxLength > MAX_DATA then MAX_DATA else maxLength;
    }

    method Clear()
      requires Valid()
      modifies this, data
      ensures Valid() && Bytes() == [] && maxLength == old(maxLength)
      ensures forall i :: 0 <= i < data.Length ==> data[i] == 0
    {
      length := 0;
      for i := 0 to data.Length
        invariant length == 0 && maxLength == old(maxLength)
        invariant forall j :: 0 <= j < i ==> data[j] == 0
      {
        data[i] := 0;
      }
    }

    method Put(x: uint8)
      requires Valid() && length < maxLength
      modifies `length, data
      ensures Valid() && Bytes() == old(Bytes()) + [x]
    {
      data[length] := x;
      length := length + 1;
    }

    method PutAll(xs: seq<uint8>)
      requires Valid() && length + |xs| <= maxLength
      modifies `length, data
      ensures Valid() && Bytes() == old(Bytes()) + xs
    {
      ghost var before := Bytes();
      for i := 0 to |xs|
        invariant Valid() && length == |before| + i && Bytes() == before + xs[..i]
      {
        assert xs[..i + 1] == xs[..i] + [xs[i]];
        Put(xs[i]);
      }
      assert xs[..|xs|] == xs;
    }

    method AddFlags(flags: uint8) returns (ok: bool)
      requires Valid()
      modifies this, data
      ensures Valid() && maxLength == old(maxLength)
      ensures Added(old(Bytes()), Bytes(), Structure(0x01, [flags]), maxLength, ok)
    {
      if length + 3 > maxLength {
        return false;
      }
      Put(2);
      Put(TYPE_FLAGS);
      Put(flags);
      assert Bytes() == old(Bytes()) + Encode(Structure(TYPE_FLAGS, [flags]));
      return true;
    }

    // The three kinds of name: `name` is the C string without its NUL.
    method AddNameOf(adType: uint8, name: seq<uint8>) returns (ok: bool)
      requires Valid()
      modifies this, data
      ensures Valid() && maxLength == old(maxLength)
      ensures Added(old(Bytes()), Bytes(), Structure(adType, ShortenedName(name)), maxLength, ok)
    {
      var nameLen := Wrap8(|name|);
      if length + 2 + nameLen > maxLength {
        return false;
      }
      Put(Wrap8(nameLen + 1));
      Put(adType);
      PutAll(name[..nameLen]);
      assert Bytes() == old(Bytes()) + Encode(Structure(adType, ShortenedName(name)));
      return true;
    }

    method AddName(name: seq<uint8>) returns (ok: bool)
      requires Valid()
      modifies this, data
      ensures Valid() && maxLength == old(maxLength)
      ensures Added(old(Bytes()), Bytes(), Structure(0x09, ShortenedName(name)), maxLength, ok)
    {
      ok := AddNameOf(TYPE_COMPLETE_NAME, name);
    }

    method AddShortName(name: seq<uint8>) returns (ok: bool)
      requires Valid()
      modifies this, data
      ensures Valid() && maxLength == old(maxLength)
      ensures Added(old(Bytes()), Bytes(), Structure(0x08, ShortenedName(name)), maxLength, ok)
    {
      ok := AddNameOf(TYPE_SHORT_NAME, name);
    }

    method AddBroadcastName(name: seq<uint8>) returns (ok: bool)
      requires Valid()
      modifies this, data
      ensures Valid() && maxLength == old(maxLength)
      ensures Added(old(Bytes()), Bytes(), Structure(0x30, ShortenedName(name)), maxLength, ok)
    {
      ok := AddNameOf(TYPE_BROADCAST_NAME, name);
    }

    method PutUuids(uuids: seq<uint16>)
      requires Valid() && length + 2 * |uuids| <= maxLength
      modifies `length, data
      ensures Valid() && Bytes() == old(Bytes()) + Le16s(uuids)
    {
      ghost var before := Bytes();
      for i := 0 to |uuids|
        invariant Valid() && length == |before| + 2 * i
        invariant Bytes() == before + Le16s(uuids[..i])
      {
        assert uuids[..i + 1][..i] == uuids[..i];
        Put(uuids[i] % 256);
        Put(uuids[i] / 256);
      }
      assert uuids[..|uuids|] == uuids;
    }

    /** gap_adv_data_add_uuid16. With more than 127 UUIDs the 8-bit size of the list wraps; it may be called with so
        many when its check refuses them, and only then (UuidsStayInside). */
    method AddUuid16(uuids: seq<uint16>, complete: bool) returns (ok: bool)
      requires Valid() && |uuids| < U8 && (|uuids| <= 127 || !AcceptsUuids(|Bytes()|, maxLength, |uuids|))
      modifies this, data
      ensures Valid() && maxLength == old(maxLength)
      ensures uuids == [] ==> !ok && Bytes() == old(Bytes())
      ensures uuids != [] ==>
        var adType := if complete then 0x03 else 0x02;
        Added(old(Bytes()), Bytes(), Structure(adType, Le16s(uuids)), maxLength, ok)
    {
      hide Le16s, Le16, Wrap8, Serialize, Parse;
      if |uuids| == 0 {
        return false;
      }
      Fits8(|uuids| * 2);
      Fits8(|uuids| * 2 + 1);
      var dataLen := Wrap8(|uuids| * 2);
      if length + 2 + dataLen > maxLength {
        return false;
      }
      var adType := if complete then TYPE_COMPLETE_UUID16 else TYPE_INCOMPLETE_UUID16;
      Put(Wrap8(dataLen + 1));
      Put(adType);
      PutUuids(uuids);
      assert Bytes() == old(Bytes()) + Encode(Structure(adType, Le16s(uuids)));
      return true;
    }

    // A 16-bit value followed by data: service data and manufacturer data. A missing pointer writes no data.
    method AddTagged(adType: uint8, tag: uint16, data': seq<uint8>, given: bool) returns (ok: bool)
      requires Valid() && |data'| <= 255
      modifies this, data
      ensures Valid() && maxLength == old(maxLength)
      ensures ok <==> |old(Bytes())| + 4 + |data'| <= maxLength
      ensures !ok ==> Bytes() == old(Bytes())
      ensures ok ==> |data'| <= 250 && Bytes() == old(Bytes()) + HeaderBytes(adType, Le16(tag), data', given)
    {
      hide HeaderBytes, Serialize, Parse, Wrap8;
      if length + 4 + |data'| > maxLength {
        return false;
      }
      ghost var before := Bytes();
      Fits8(|data'| + 3);
      Put(Wrap8(|data'| + 3));
      Put(adType);
      Put(tag % 256);
      Put(tag / 256);
      assert Bytes() == before + ([|data'| + 3, adType] + Le16(tag));
      ghost var headed := Bytes();
      if given && |data'| > 0 {
        PutAll(data');
      }
      HeaderJoins(before, headed, adType, Le16(tag), data', given);
      return true;
    }

    /** gap_adv_data_add_service_data_16 */
    method AddServiceData(uuid: uint16, data': seq<uint8>, given: bool) returns (ok: bool)
      requires Valid() && |data'| <= 255
      modifies this, data
      ensures Valid() && maxLength == old(maxLength)
      ensures given || data' == [] ==>
        Added(old(Bytes()), Bytes(), Structure(0x16, Le16(uuid) + data'), maxLength, ok)
      ensures ok <==> |old(Bytes())| + 4 + |data'| <= maxLength
      ensures !ok ==> Bytes() == old(Bytes())
      ensures ok ==>
        |data'| <= 250 && Bytes() == old(Bytes()) + HeaderBytes(0x16, Le16(uuid), data', given)
    {
      ok := AddTagged(TYPE_SERVICE_DATA, uuid, data', given);
      if ok && (given || data' == []) {
        assert Bytes() == old(Bytes()) + Encode(Structure(TYPE_SERVICE_DATA, Le16(uuid) + data'));
      }
    }

    /** gap_adv_data_add_manufacturer_data */
    method AddManufacturerData(company: uint16, data': seq<uint8>, given: bool) returns (ok: bool)
      requires Valid() && |data'| <= 255
      modifies this, data
      ensures Valid() && maxLength == old(maxLength)
      ensures given || data' == [] ==>
        Added(old(Bytes()), Bytes(), Structure(0xFF, Le16(company) + data'), maxLength, ok)
      ensures ok <==> |old(Bytes())| + 4 + |data'| <= maxLength
      ensures !ok ==> Bytes() == old(Bytes())
      ensures ok ==>
        |data'| <= 250 && Bytes() == old(Bytes()) + HeaderBytes(0xFF, Le16(company), data', given)
    {
      ok := AddTagged(TYPE_MANUFACTURER, company, data', given);
      if ok && (given || data' == []) {
        assert Bytes() == old(Bytes()) + Encode(Structure(TYPE_MANUFACTURER, Le16(company) + data'));
      }
    }

    method AddAppearance(appearance: uint16) returns (ok: bool)
      requires Valid()
      modifies this, data
      ensures Valid() && maxLength == old(maxLength)
      ensures Added(old(Bytes()), Bytes(), Structure(0x19, Le16(appearance)), maxLength, ok)
    {
      if length + 4 > maxLength {
        return false;
      }
      Put(3);
      Put(TYPE_APPEARANCE);
      Put(appearance % 256);
      Put(appearance / 256);
      assert Bytes() == old(Bytes()) + Encode(Structure(TYPE_APPEARANCE, Le16(appearance)));
      return true;
    }

    method AddTxPower(txPower: int) returns (ok: bool)
      requires Valid() && -128 <= txPower < 128
      modifies this, data
      ensures Valid() && maxLength == old(maxLength)
      ensures Added(old(Bytes()), Bytes(), Structure(0x0A, [Wrap8(txPower)]), maxLength, ok)
    {
      if length + 3 > maxLength {
        return false;
      }
      Put(2);
      Put(TYPE_TX_POWER);
      Put(Wrap8(txPower));
      assert Bytes() == old(Bytes()) + Encode(Structure(TYPE_TX_POWER, [Wrap8(txPower)]));
      return true;
    }

    method AddRaw(adType: uint8, data': seq<uint8>, given: bool) returns (ok: bool)
      requires Valid() && |data'| <= 255
      modifies this, data
      ensures Valid() && maxLength == old(maxLength)
      ensures ok <==> |old(Bytes())| + 2 + |data'| <= maxLength
      ensures !ok ==> Bytes() == old(Bytes())
      ensures ok ==> |data'| <= 252 && Bytes() == old(Bytes()) + HeaderBytes(adType, [], data', given)
    {
      if length + 2 + |data'| > maxLength {
        return false;
      }
      Put(Wrap8(|data'| + 1));
      Put(adType);
      assert Bytes() == old(Bytes()) + [|data'| + 1, adType];
      if given && |data'| > 0 {
        PutAll(data');
      }
      return true;
    }
  }

  /** A name comes back from the bytes with its length modulo 256, so whole exactly when it is shorter than 256
      bytes. */
  lemma NameRoundTrip(xs: seq<Structure>, name: seq<uint8>, max: nat)
    requires AllEncodable(xs) && |ShortenedName(name)| <= 252 && |xs| < max
    ensures var bytes := Serialize(xs) + Encode(Structure(0x09, ShortenedName(name)));
      && Parse(bytes, max) == xs + [Structure(0x09, name[..|name| % 256])]
      && (Parse(bytes, max) == xs + [Structure(0x09, name)] <==> |name| < 256)
  {
    var x := Structure(TYPE_COMPLETE_NAME, ShortenedName(name));
    ParseSerialized(xs, Encode(x), max);
    ParseEncoded(x, [], max - |xs|);
    assert Encode(x) + [] == Encode(x);
    assert Parse(Serialize(xs) + Encode(x), max) == xs + [x];
    assert (xs + [x])[|xs|] == x;
    assert (xs + [Structure(TYPE_COMPLETE_NAME, name)])[|xs|].data == name;
    if |name| < 256 {
      assert ShortenedName(name) == name;
    }
  }

  // The elements written are those of the structures found, and no other element is touched.
  twostate predicate Filled(raw: seq<uint8>, elements: array<Element>, max: nat, count: nat)
    reads elements
  {
    && count == |Parse(raw, max)| <= elements.Length
    && elements[..count] == Located(Parse(raw, max), 0)
    && elements[count..] == old(elements[count..])
  }

  // How far a parser is: it has found `count` of the structures, and the others start at `offset`.
  ghost predicate Progress(raw: seq<uint8>, max: nat, all: seq<Structure>, count: nat, offset: nat)
  {
    && offset <= |raw| && count <= |all| && count <= max
    && all[count..] == Parse(raw[offset..], max - count)
  }

  // The elements so far, and those still to come.
  ghost predicate Emitted(elements: seq<Element>, all: seq<Structure>, count: nat, offset: nat)
  {
    && count <= |all| && count <= |elements|
    && Located(all, 0) == elements[..count] + Located(all[count..], offset)
  }

  // A complete structure at the offset is the next one; an incomplete one is the end.
  lemma FindNext(raw: seq<uint8>, max: nat, all: seq<Structure>, count: nat, offset: nat)
    requires Progress(raw, max, all, count, offset) && offset < |raw| < U8 && count < max
    ensures var len := raw[offset];
      if len == 0 || offset + len >= |raw| then count == |all|
      else
        && offset + len + 1 < U8 && count < |all|
        && all[count] == Structure(raw[offset + 1], raw[offset + 2..offset + len + 1])
        && Progress(raw, max, all, count + 1, offset + len + 1)
  {
    var rest, len := raw[offset..], raw[offset];
    if len != 0 && offset + len < |raw| {
      assert rest[2..len + 1] == raw[offset + 2..offset + len + 1];
      assert rest[len + 1..] == raw[offset + len + 1..];
      assert all[count..][0] == all[count];
      assert all[count..][1..] == all[count + 1..];
    } else {
      assert all[count..] == [];
    }
  }

  // Without bytes or without room nothing more is found.
  lemma FindEnd(raw: seq<uint8>, max: nat, all: seq<Structure>, count: nat, offset: nat)
    requires Progress(raw, max, all, count, offset) && (offset == |raw| || count == max)
    ensures count == |all|
  {
    assert all[count..] == [];
  }

  lemma LocatedFirst(xs: seq<Structure>, offset: nat)
    requires xs != [] && |xs[0].data| < U8
    ensures Located(xs, offset) ==
      [Element(xs[0].adType, |xs[0].data|, offset + 2)] + Located(xs[1..], offset + |xs[0].data| + 2)
  {
  }

  lemma Move(front: seq<Element>, e: Element, back: seq<Element>)
    ensures front + ([e] + back) == (front + [e]) + back
  {
  }

  // At the start and at the end of the loop.
  lemma Beginning(raw: seq<uint8>, elements: seq<Element>, max: nat)
    ensures Progress(raw, max, Parse(raw, max), 0, 0) && Emitted(elements, Parse(raw, max), 0, 0)
  {
    assert raw[0..] == raw;
    assert Parse(raw, max)[0..] == Parse(raw, max);
  }

  lemma Ending(elements: seq<Element>, all: seq<Structure>, count: nat, offset: nat)
    requires Emitted(elements, all, count, offset) && count == |all|
    ensures count <= |elements| && elements[..count] == Located(all, 0)
  {
    assert all[count..] == [];
  }

  // Stores the next element.
  method Emit(elements: array<Element>, count: nat, offset: nat, e: Element, ghost all: seq<Structure>)
    requires Emitted(elements[..], all, count, offset) && count < elements.Length && count < |all|
    requires |all[count].data| < U8 && e == Element(all[count].adType, |all[count].data|, offset + 2)
    modifies elements
    ensures Emitted(elements[..], all, count + 1, offset + |all[count].data| + 2)
    ensures elements[count + 1..] == old(elements[count + 1..])
  {
    hide Located;
    ghost var was := elements[..];
    elements[count] := e;
    LocatedFirst(all[count..], offset);
    assert all[count..][1..] == all[count + 1..];
    assert elements[..][..count + 1] == was[..count] + [e];
    Move(was[..count], e, Located(all[count + 1..], offset + |all[count].data| + 2));
  }

  /** parse_raw_adv_data of `gap_config.c` */
  method ParseGap(raw: seq<uint8>, elements: array<Element>, max: uint8) returns (count: uint8)
    requires |raw| < U8 && max <= elements.Length
    modifies elements
    ensures Filled(raw, elements, max, count)
  {
    hide Parse, Located, Progress, Emitted;
    Beginning(raw, elements[..], max);
    count := 0;
    var rawLen: uint8 := |raw|;
    var offset: uint8 := 0;
    ghost var all := Parse(raw, max);
    while offset < rawLen && count < max
      invariant offset <= rawLen && count <= max
      invariant Progress(raw, max, all, count, offset)
      invariant Emitted(elements[..], all, count, offset)
      invariant elements[count..] == old(elements[count..])
      decreases rawLen - offset
    {
      var len := raw[offset];
      FindNext(raw, max, all, count, offset);
      if len == 0 || offset + len >= rawLen {
        Ending(elements[..], all, count, offset);
        return;
      }
      Emit(elements, count, offset, Element(raw[offset + 1], len - 1, offset + 2), all);
      count := Wrap8(count + 1);
      offset := Wrap8(offset + len + 1);
    }
    FindEnd(raw, max, all, count, offset);
    Ending(elements[..], all, count, offset);
  }

  /** parse_raw_adv_data of `bt_init.c`, which must find the same. */
  method ParseBt(raw: seq<uint8>, elements: array<Element>, max: uint8) returns (count: uint8)
    requires |raw| < U8 && max <= elements.Length
    modifies elements
    ensures Filled(raw, elements, max, count)
  {
    hide Parse, Located, Progress, Emitted;
    Beginning(raw, elements[..], max);
    count := 0;
    var rawLen: uint8 := |raw|;
    var offset: uint8 := 0;
    ghost var all := Parse(raw, max);
    while offset < rawLen && count < max
      invariant offset <= rawLen && count <= max
      invariant Progress(raw, max, all, count, offset)
      invariant Emitted(elements[..], all, count, offset)
      invariant elements[count..] == old(elements[count..])
      decreases rawLen - offset
    {
      var elemLen := raw[offset];
      FindNext(raw, max, all, count, offset);
      if elemLen == 0 || offset + 1 + elemLen > rawLen {
        Ending(elements[..], all, count, offset);
        return;
      }
      Emit(elements, count, offset, Element(raw[offset + 1], elemLen - 1, offset + 2), all);
      count := Wrap8(count + 1);
      offset := Wrap8(offset + 1 + elemLen);
    }
    FindEnd(raw, max, all, count, offset);
    Ending(elements[..], all, count, offset);
  }

  /** Both parsers on the same bytes: they write the same elements, pointers included. */
  method ParseBoth(raw: seq<uint8>, gap: array<Element>, bt: array<Element>, max: uint8) returns (count: uint8)
    requires |raw| < U8 && max <= gap.Length && max <= bt.Length && gap != bt
    modifies gap, bt
    ensures count == |Parse(raw, max)|
    ensures gap[..count] == bt[..count] == Located(Parse(raw, max), 0)
    ensures gap[count..] == old(gap[count..]) && bt[count..] == old(bt[count..])
  {
    count := ParseGap(raw, gap, max);
    var again := ParseBt(raw, bt, max);
    assert again == count;
  }

  const NAME_BUFFER := 32
  const ADV_BUFFER := 31

  // What the default advertising data and scan response announce.
  function DefaultAdvertisement(name: seq<uint8>): seq<Structure>
  {
    [Structure(TYPE_FLAGS, [0x06]), Structure(TYPE_COMPLETE_NAME, name[..Min(|name|, 25)])]
  }

  function DefaultScanResponse(): seq<Structure> { [Structure(TYPE_TX_POWER, [0])] }

  /** build_default_adv_data: at most 31 bytes, which parse to the flags and the name cut to 25 bytes. */
  method BuildDefault(adv: array<uint8>, scan: array<uint8>, name: seq<uint8>)
    returns (advLen: uint8, scanLen: uint8)
    requires adv.Length == ADV_BUFFER == scan.Length && adv != scan && |name| < NAME_BUFFER
    modifies adv, scan
    ensures advLen <= ADV_BUFFER && adv[..advLen] == Serialize(DefaultAdvertisement(name))
    ensures forall max :: 2 <= max ==> Parse(adv[..advLen], max) == DefaultAdvertisement(name)
    ensures scanLen <= ADV_BUFFER && scan[..scanLen] == Serialize(DefaultScanResponse())
  {
    hide Parse, Serialize, DefaultAdvertisement, DefaultScanResponse;
    adv[0], adv[1], adv[2] := 2, TYPE_FLAGS, 0x06;
    var nameLen := Wrap8(|name|);
    if nameLen > 25 {
      nameLen := 25;
    }
    adv[3], adv[4] := nameLen + 1, TYPE_COMPLETE_NAME;
    for i := 0 to nameLen
      invariant adv[..5] == [2, TYPE_FLAGS, 0x06, nameLen + 1, TYPE_COMPLETE_NAME]
      invariant adv[5..5 + i] == name[..i]
    {
      adv[5 + i] := name[i];
    }
    advLen := 5 + nameLen;
    scan[0], scan[1], scan[2] := 2, TYPE_TX_POWER, 0;
    scanLen := 3;

    assert adv[..advLen] == adv[..5] + adv[5..5 + nameLen];
    assert scan[..3] == [2, TYPE_TX_POWER, 0];
    DefaultBytes(name);
  }

  lemma DefaultBytes(name: seq<uint8>)
    requires |name| < NAME_BUFFER
    ensures var n := Min(|name|, 25);
      Serialize(DefaultAdvertisement(name)) == [2, 0x01, 0x06, n + 1, 0x09] + name[..n]
    ensures Serialize(DefaultScanResponse()) == [2, 0x0A, 0]
    ensures forall max :: 2 <= max ==>
      Parse(Serialize(DefaultAdvertisement(name)), max) == DefaultAdvertisement(name)
  {
    hide Parse;
    var xs := DefaultAdvertisement(name);
    SerializeOne(xs[1]);
    SerializeCons(xs[0], [xs[1]]);
    assert xs == [xs[0]] + [xs[1]];
    SerializeOne(Structure(TYPE_TX_POWER, [0]));
    DefaultParses(xs);
  }

  lemma DefaultParses(xs: seq<Structure>)
    requires AllEncodable(xs) && |xs| == 2
    ensures forall max :: 2 <= max ==> Parse(Serialize(xs), max) == xs
  {
    hide Parse, Serialize;
    forall max | 2 <= max ensures Parse(Serialize(xs), max) == xs {
      ParseOfSerialize(xs, max);
      assert xs[..2] == xs;
    }
  }
}
