/**
 Advertising data: length, type and data of each AD structure, one after the other (section 11 of Vol 3,
 Part C of the Bluetooth Core Specification). This module says what a list of structures looks like as
 bytes and what a byte string contains; the builder and the two parsers are proved against it.
 */
module AdvData {
  import opened Words

  datatype Structure = Structure(adType: uint8, data: seq<uint8>)

  // The length byte counts the type and the data.
  predicate Encodable(x: Structure) { |x.data| <= 254 }

  predicate AllEncodable(xs: seq<Structure>) { forall x :: x in xs ==> Encodable(x) }

  function Encode(x: Structure): (bytes: seq<uint8>)
    ensures |bytes| == |x.data| + 2
  {
    [Wrap8(|x.data| + 1), x.adType] + x.data
  }

  function Serialize(xs: seq<Structure>): seq<uint8>
  {
    if xs == [] then [] else Encode(xs[0]) + Serialize(xs[1..])
  }

  // The string starts with a complete structure.
  predicate StartsComplete(raw: seq<uint8>)
  {
    raw != [] && 0 < raw[0] < |raw|
  }

  // At most `max` complete structures, from the start of the string.
  function Parse(raw: seq<uint8>, max: nat): (xs: seq<Structure>)
    ensures |xs| <= max
  {
    if max == 0 || !StartsComplete(raw) then []
    else [Structure(raw[1], raw[2..raw[0] + 1])] + Parse(raw[raw[0] + 1..], max - 1)
  }

  lemma {:induction false} ParseEncoded(x: Structure, rest: seq<uint8>, max: nat)
    requires Encodable(x) && 0 < max
    ensures Parse(Encode(x) + rest, max) == [x] + Parse(rest, max - 1)
  {
    var raw := Encode(x) + rest;
    assert raw[2..raw[0] + 1] == x.data;
    assert raw[raw[0] + 1..] == rest;
  }

  /** What follows serialised structures is parsed as if it stood alone. */
  lemma {:induction false} ParseSerialized(xs: seq<Structure>, rest: seq<uint8>, max: nat)
    requires AllEncodable(xs) && |xs| <= max
    ensures Parse(Serialize(xs) + rest, max) == xs + Parse(rest, max - |xs|)
  {
    hide Parse, Encode;
    if xs == [] {
      assert Serialize(xs) + rest == rest;
      assert max - |xs| == max;
      assert xs + Parse(rest, max) == Parse(rest, max);
    } else {
      var tail := Serialize(xs[1..]) + rest;
      assert Serialize(xs) + rest == Encode(xs[0]) + tail;
      ParseEncoded(xs[0], tail, max);
      ParseSerialized(xs[1..], rest, max - 1);
      assert (max - 1) - |xs[1..]| == max - |xs|;
      var found := Parse(rest, max - |xs|);
      Regroup(xs, found);
      assert Parse(tail, max - 1) == xs[1..] + found;
      assert Parse(Serialize(xs) + rest, max) == [xs[0]] + (xs[1..] + found);
    }
  }

  lemma Regroup<T>(xs: seq<T>, ys: seq<T>)
    requires xs != []
    ensures [xs[0]] + (xs[1..] + ys) == xs + ys
  {
  }

  /** Round trip: parsing what was serialised returns the structures, up to the room for elements. */
  lemma ParseOfSerialize(xs: seq<Structure>, max: nat)
    requires AllEncodable(xs)
    ensures Parse(Serialize(xs), max) == xs[..Min(|xs|, max)]
  {
    var n := Min(|xs|, max);
    assert xs == xs[..n] + xs[n..];
    SerializeJoin(xs[..n], xs[n..]);
    assert AllEncodable(xs[..n]);
    ParseSerialized(xs[..n], Serialize(xs[n..]), max);
    assert Parse(Serialize(xs[n..]), max - n) == [] by {
      if n == |xs| {
        assert xs[n..] == [];
      }
    }
  }

  lemma {:induction false} SerializeJoin(xs: seq<Structure>, ys: seq<Structure>)
    ensures Serialize(xs + ys) == Serialize(xs) + Serialize(ys)
  {
    hide Encode;
    if xs == [] {
      assert xs + ys == ys;
    } else {
      SerializeJoin(xs[1..], ys);
      assert (xs + ys)[1..] == xs[1..] + ys;
    }
  }

  /** The other way round: serialising the structures found in any bytes reproduces the bytes they were found
      in, and the parser stops only for lack of room or of a complete structure. */
  lemma {:induction false} SerializeOfParse(raw: seq<uint8>, max: nat)
    ensures var xs := Parse(raw, max);
      && AllEncodable(xs) && Serialize(xs) <= raw
      && (|xs| == max || !StartsComplete(raw[|Serialize(xs)|..]))
  {
    if max > 0 && StartsComplete(raw) {
      var x, rest := Structure(raw[1], raw[2..raw[0] + 1]), raw[raw[0] + 1..];
      var tail := Parse(rest, max - 1);
      SerializeOfParse(rest, max - 1);
      assert raw == Encode(x) + rest;
      assert Parse(raw, max) == [x] + tail;
      SerializeCons(x, tail);
      Prefixes(Encode(x), Serialize(tail), rest);
    }
  }

  lemma SerializeCons(x: Structure, xs: seq<Structure>)
    ensures Serialize([x] + xs) == Encode(x) + Serialize(xs)
  {
    assert ([x] + xs)[1..] == xs;
  }

  lemma SerializeOne(x: Structure)
    ensures Serialize([x]) == Encode(x)
  {
    assert [x][1..] == [];
    assert Encode(x) + [] == Encode(x);
  }

  lemma Prefixes<T>(a: seq<T>, b: seq<T>, c: seq<T>)
    requires b <= c
    ensures a + b <= a + c && (a + c)[|a + b|..] == c[|b|..]
  {
  }

  /** These properties leave the parser no choice. */
  lemma ParseIsUnique(raw: seq<uint8>, max: nat, xs: seq<Structure>)
    requires AllEncodable(xs) && |xs| <= max && Serialize(xs) <= raw
    requires |xs| == max || !StartsComplete(raw[|Serialize(xs)|..])
    ensures xs == Parse(raw, max)
  {
    var rest := raw[|Serialize(xs)|..];
    assert raw == Serialize(xs) + rest;
    ParseSerialized(xs, rest, max);
  }

  // The builder accepts a structure when it fits.
  function Extend(bytes: seq<uint8>, x: Structure, maxLength: nat): (seq<uint8>, bool)
  {
    if |bytes| + |Encode(x)| > maxLength then (bytes, false) else (bytes + Encode(x), true)
  }

  /** An addition fits exactly if the header and the data stay within the limit; one that does not fit changes
      nothing. */
  lemma ExtendFits(bytes: seq<uint8>, x: Structure, maxLength: nat)
    ensures var (after, ok) := Extend(bytes, x, maxLength);
      && (ok <==> |bytes| + 2 + |x.data| <= maxLength)
      && after == if ok then bytes + Encode(x) else bytes
  {
  }

  // A whole session with the builder: the bytes, and the structures it accepted.
  function Build(xs: seq<Structure>, maxLength: nat): (seq<uint8>, seq<Structure>)
  {
    if xs == [] then ([], [])
    else
      var last := xs[|xs| - 1];
      var (bytes, taken) := Build(xs[..|xs| - 1], maxLength);
      var (longer, ok) := Extend(bytes, last, maxLength);
      (longer, if ok then taken + [last] else taken)
  }

  /** Round trip of a session: parsing the bytes of the builder returns exactly the structures it accepted, and
      every structure it refused would not have fitted. */
  lemma BuildRoundTrip(xs: seq<Structure>, maxLength: nat, max: nat)
    requires maxLength <= 254
    ensures var (bytes, taken) := Build(xs, maxLength);
      && bytes == Serialize(taken) && |bytes| <= maxLength
      && Parse(bytes, max) == taken[..Min(|taken|, max)]
  {
    BuildSerializes(xs, maxLength);
    ParseOfSerialize(Build(xs, maxLength).1, max);
  }

  lemma {:induction false} BuildSerializes(xs: seq<Structure>, maxLength: nat)
    requires maxLength <= 254
    ensures var (bytes, taken) := Build(xs, maxLength);
      bytes == Serialize(taken) && |bytes| <= maxLength && AllEncodable(taken)
  {
    if xs != [] {
      var front, last := xs[..|xs| - 1], xs[|xs| - 1];
      BuildSerializes(front, maxLength);
      SerializeJoin(Build(front, maxLength).1, [last]);
      SerializeOne(last);
    }
  }

  // A header, what always follows it, and the data: without a data pointer the header is written all the same.
  function HeaderBytes(adType: uint8, tag: seq<uint8>, data: seq<uint8>, given: bool): seq<uint8>
    requires |tag| + |data| <= 254
  {
    [|tag| + |data| + 1, adType] + tag + if given then data else []
  }

  /** What a parser makes of such a structure, whatever follows. With its data, or if they are empty, it comes back,
      and so does what follows. A header without its data swallows as many of the bytes that follow, and if there
      are too few the parser stops in front of it. */
  lemma RawRoundTrip(
      xs: seq<Structure>, adType: uint8, tag: seq<uint8>, data: seq<uint8>, given: bool, rest: seq<uint8>, max: nat)
    requires AllEncodable(xs) && |tag| + |data| <= 254 && |xs| < max
    ensures Parse(Serialize(xs) + (HeaderBytes(adType, tag, data, given) + rest), max) ==
      xs + if given || data == [] then [Structure(adType, tag + data)] + Parse(rest, max - |xs| - 1)
           else if |data| <= |rest| then
             [Structure(adType, tag + rest[..|data|])] + Parse(rest[|data|..], max - |xs| - 1)
           else []
    ensures rest == [] ==>
      (given || data == [] <==>
         Parse(Serialize(xs) + (HeaderBytes(adType, tag, data, given) + rest), max) ==
         xs + [Structure(adType, tag + data)])
  {
    hide Parse, HeaderBytes, Serialize;
    ParseSerialized(xs, HeaderBytes(adType, tag, data, given) + rest, max);
    ParseHeader(adType, tag, data, given, rest, max - |xs|);
    NothingParsed(max - |xs| - 1);
  }

  lemma NothingParsed(max: nat)
    ensures Parse([], max) == []
  {
  }

  lemma ParseHeader(adType: uint8, tag: seq<uint8>, data: seq<uint8>, given: bool, rest: seq<uint8>, max: nat)
    requires |tag| + |data| <= 254 && 0 < max
    ensures Parse(HeaderBytes(adType, tag, data, given) + rest, max) ==
      if given || data == [] then [Structure(adType, tag + data)] + Parse(rest, max - 1)
      else if |data| <= |rest| then [Structure(adType, tag + rest[..|data|])] + Parse(rest[|data|..], max - 1)
      else []
  {
    var added := HeaderBytes(adType, tag, data, given) + rest;
    if given || data == [] {
      assert added == Encode(Structure(adType, tag + data)) + rest;
      ParseEncoded(Structure(adType, tag + data), rest, max);
    } else if |data| <= |rest| {
      assert added == Encode(Structure(adType, tag + rest[..|data|])) + rest[|data|..];
      ParseEncoded(Structure(adType, tag + rest[..|data|]), rest[|data|..], max);
    } else {
      assert !StartsComplete(added);
    }
  }

  // An element of the stack's array: its data stay in the raw bytes, `at` is the pointer into them.
  datatype Element = Element(adType: uint8, len: uint8, at: nat)

  // The elements for structures that start at an offset.
  function Located(xs: seq<Structure>, offset: nat): (es: seq<Element>)
    ensures |es| == |xs|
  {
    if xs == [] then []
    else [Element(xs[0].adType, Wrap8(|xs[0].data|), offset + 2)] + Located(xs[1..], offset + |Encode(xs[0])|)
  }

  /** Element i has the type, the length and the place of structure i: behind the bytes of the structures before
      it and its own header. */
  lemma {:induction false} LocatedAt(xs: seq<Structure>, offset: nat, i: nat)
    requires AllEncodable(xs) && i < |xs|
    ensures Encodable(xs[i]) && Located(xs, offset)[i] ==
      Element(xs[i].adType, |xs[i].data|, offset + |Serialize(xs[..i])| + 2)
  {
    assert xs[0] in xs && xs[i] in xs;
    if i > 0 {
      LocatedAt(xs[1..], offset + |Encode(xs[0])|, i - 1);
      assert xs[..i] == [xs[0]] + xs[1..][..i - 1];
      SerializeCons(xs[0], xs[1..][..i - 1]);
    }
  }

  /** And the bytes at this place are the data of the structure. */
  lemma ElementsPointToData(raw: seq<uint8>, max: nat, i: nat)
    requires i < |Parse(raw, max)|
    ensures var xs := Parse(raw, max); var e := Located(xs, 0)[i];
      e.at + e.len <= |raw| && raw[e.at..e.at + e.len] == xs[i].data && e.adType == xs[i].adType
  {
    hide Parse, Located, Encode;
    var xs := Parse(raw, max);
    SerializeOfParse(raw, max);
    LocatedAt(xs, 0, i);
    SplitAt(xs, i);
    var before, own, after := Serialize(xs[..i]), Encode(xs[i]), Serialize(xs[i + 1..]);
    var rest := raw[|Serialize(xs)|..];
    assert raw == before + (own + after) + rest;
    Inside(before, own, after, rest, raw);
    DataOf(xs[i]);
  }

  lemma SplitAt(xs: seq<Structure>, i: nat)
    requires i < |xs|
    ensures Serialize(xs) == Serialize(xs[..i]) + (Encode(xs[i]) + Serialize(xs[i + 1..]))
  {
    hide Encode, Serialize;
    SerializeJoin(xs[..i], [xs[i]] + xs[i + 1..]);
    SerializeCons(xs[i], xs[i + 1..]);
    assert xs == xs[..i] + ([xs[i]] + xs[i + 1..]);
  }

  lemma DataOf(x: Structure)
    ensures Encode(x)[2..] == x.data
  {
  }

  lemma Inside(before: seq<uint8>, own: seq<uint8>, after: seq<uint8>, rest: seq<uint8>, raw: seq<uint8>)
    requires raw == before + (own + after) + rest && |own| >= 2
    ensures raw[|before| + 2..|before| + |own|] == own[2..]
  {
  }
}
