/**
 The payload of the LE Set CIG Parameters command as `hci_isoc.c` writes it, and a reader of such payloads after
 section 7.8.97 of Vol 4, Part E of the Bluetooth Core Specification.
 */
module CigParams {
  import opened Words

  const MAX_CIS := 4
  const HEADER := 15
  const PER_CIS := 9

  datatype CisConfig = CisConfig(
    id: uint8, maxSduCp: uint16, maxSduPc: uint16, phyCp: uint8, phyPc: uint8, rtnCp: uint8, rtnPc: uint8)

  datatype CigConfig = CigConfig(
    id: uint8, intervalCp: uint32, intervalPc: uint32, sca: uint8, packing: uint8, framing: uint8,
    latencyCp: uint16, latencyPc: uint16, cis: seq<CisConfig>)

  // Little-endian fields.
  function Low(x: int): uint8 { x % 0x100 }
  function Middle(x: int): uint8 { (x / 0x100) % 0x100 }
  function High(x: int): uint8 { (x / 0x1_0000) % 0x100 }

  function Word(low: int, high: int): int { low + 0x100 * high }
  function Word24(low: int, middle: int, high: int): int { low + 0x100 * middle + 0x1_0000 * high }

  lemma WordOfTwo(x: uint16)
    ensures Word(Low(x), Middle(x)) == x
  {
  }

  lemma Word24OfThree(x: uint32)
    ensures Word24(Low(x), Middle(x), High(x)) == x % 0x100_0000
  {
    var q := x / 0x100;
    var r := q / 0x100;
    assert x / 0x1_0000 == r && x / 0x100_0000 == r / 0x100;
    assert q % 0x100 == q - 0x100 * r;
    assert r % 0x100 == r - 0x100 * (r / 0x100);
  }

  lemma TwoOfWord(low: uint8, high: uint8)
    ensures 0 <= Word(low, high) < U16 && Low(Word(low, high)) == low && Middle(Word(low, high)) == high
  {
  }

  lemma ThreeOfWord24(low: uint8, middle: uint8, high: uint8)
    ensures var x := Word24(low, middle, high);
      0 <= x < 0x100_0000 && Low(x) == low && Middle(x) == middle && High(x) == high
  {
    var x := Word24(low, middle, high);
    assert x / 0x100 == middle + 0x100 * high;
    assert x / 0x1_0000 == high;
  }

  function CisBytes(c: CisConfig): (bytes: seq<uint8>)
    ensures |bytes| == PER_CIS
  {
    [c.id, Low(c.maxSduCp), Middle(c.maxSduCp), Low(c.maxSduPc), Middle(c.maxSduPc),
     c.phyCp, c.phyPc, c.rtnCp, c.rtnPc]
  }

  function AllCisBytes(cs: seq<CisConfig>): (bytes: seq<uint8>)
    ensures |bytes| == PER_CIS * |cs|
  {
    if cs == [] then [] else AllCisBytes(cs[..|cs| - 1]) + CisBytes(cs[|cs| - 1])
  }

  function HeaderBytes(c: CigConfig): (bytes: seq<uint8>)
    ensures |bytes| == HEADER
  {
    [c.id, Low(c.intervalCp), Middle(c.intervalCp), High(c.intervalCp),
     Low(c.intervalPc), Middle(c.intervalPc), High(c.intervalPc), c.sca, c.packing, c.framing,
     Low(c.latencyCp), Middle(c.latencyCp), Low(c.latencyPc), Middle(c.latencyPc), Wrap8(|c.cis|)]
  }

  function Payload(c: CigConfig): seq<uint8> { HeaderBytes(c) + AllCisBytes(c.cis) }

  // The reader.
  function ReadCis(b: seq<uint8>): CisConfig
    requires |b| == PER_CIS
  {
    TwoOfWord(b[1], b[2]);
    TwoOfWord(b[3], b[4]);
    CisConfig(b[0], Word(b[1], b[2]), Word(b[3], b[4]), b[5], b[6], b[7], b[8])
  }

  function ReadAllCis(b: seq<uint8>): (cs: seq<CisConfig>)
    requires |b| % PER_CIS == 0
    ensures |b| == PER_CIS * |cs|
  {
    if b == [] then [] else ReadAllCis(b[..|b| - PER_CIS]) + [ReadCis(b[|b| - PER_CIS..])]
  }

  function ReadHeader(h: seq<uint8>, cis: seq<CisConfig>): CigConfig
    requires |h| == HEADER
  {
    ThreeOfWord24(h[1], h[2], h[3]);
    ThreeOfWord24(h[4], h[5], h[6]);
    TwoOfWord(h[10], h[11]);
    TwoOfWord(h[12], h[13]);
    CigConfig(h[0], Word24(h[1], h[2], h[3]), Word24(h[4], h[5], h[6]), h[7], h[8], h[9],
              Word(h[10], h[11]), Word(h[12], h[13]), cis)
  }

  predicate WellFormed(b: seq<uint8>) { |b| >= HEADER && |b| == HEADER + PER_CIS * b[14] }

  function Read(b: seq<uint8>): Option<CigConfig>
  {
    if !WellFormed(b) then None else Some(ReadHeader(b[..HEADER], ReadAllCis(b[HEADER..])))
  }

  lemma {:induction false} ReadAllCisBytes(cs: seq<CisConfig>)
    ensures ReadAllCis(AllCisBytes(cs)) == cs
    decreases |cs|
  {
    hide CisBytes, ReadCis;
    if cs != [] {
      var front, last := cs[..|cs| - 1], cs[|cs| - 1];
      var bytes := AllCisBytes(cs);
      ReadAllCisBytes(front);
      assert bytes[..|bytes| - PER_CIS] == AllCisBytes(front);
      assert bytes[|bytes| - PER_CIS..] == CisBytes(last);
      ReadCisBytes(last);
      assert cs == front + [last];
    }
  }

  lemma ReadCisBytes(c: CisConfig)
    ensures ReadCis(CisBytes(c)) == c
  {
    WordOfTwo(c.maxSduCp);
    WordOfTwo(c.maxSduPc);
  }

  lemma {:induction false} BytesOfAllCis(b: seq<uint8>)
    requires |b| % PER_CIS == 0
    ensures AllCisBytes(ReadAllCis(b)) == b
    decreases |b|
  {
    if b != [] {
      var n := |b| - PER_CIS;
      BytesOfAllCis(b[..n]);
      var front, last := ReadAllCis(b[..n]), ReadCis(b[n..]);
      TwoOfWord(b[n + 1], b[n + 2]);
      TwoOfWord(b[n + 3], b[n + 4]);
      assert CisBytes(last) == b[n..];
      assert (front + [last])[..|front|] == front;
      assert b == b[..n] + b[n..];
    }
  }

  // What is left of a configuration when the intervals are cut to 24 bits.
  function Cut(c: CigConfig): CigConfig
  {
    c.(intervalCp := c.intervalCp % 0x100_0000, intervalPc := c.intervalPc % 0x100_0000)
  }

  lemma SameCis(h: seq<uint8>, cis: seq<CisConfig>)
    requires |h| == HEADER
    ensures ReadHeader(h, cis).cis == cis
  {
  }

  lemma CountByte(c: CigConfig)
    requires |c.cis| <= MAX_CIS
    ensures HeaderBytes(c)[14] == |c.cis|
  {
  }

  lemma ReadHeaderBytes(c: CigConfig)
    ensures ReadHeader(HeaderBytes(c), c.cis) == Cut(c)
  {
    Word24OfThree(c.intervalCp);
    Word24OfThree(c.intervalPc);
    WordOfTwo(c.latencyCp);
    WordOfTwo(c.latencyPc);
  }

  lemma CountIsByte(n: uint8)
    ensures Wrap8(n) == n
  {
  }

  lemma BytesOfHeader(h: seq<uint8>, cis: seq<CisConfig>)
    requires |h| == HEADER && h[14] == |cis|
    ensures HeaderBytes(ReadHeader(h, cis)) == h
  {
    hide Low, Middle, High, Word, Word24, Wrap8;
    CountIsByte(h[14]);
    ThreeOfWord24(h[1], h[2], h[3]);
    ThreeOfWord24(h[4], h[5], h[6]);
    TwoOfWord(h[10], h[11]);
    TwoOfWord(h[12], h[13]);
  }

  /** Where the fields of a payload stand: the words low byte first, and the fields of stream i from byte 15 + 9 i
      on. */
  lemma PayloadLayout(c: CigConfig, i: nat)
    requires |c.cis| <= MAX_CIS && i < |c.cis|
    ensures |Payload(c)| == 15 + 9 * |c.cis|
    ensures var b := Payload(c);
      && b[0] == c.id && b[7] == c.sca && b[8] == c.packing && b[9] == c.framing && b[14] == |c.cis|
      && Word24(b[1], b[2], b[3]) == c.intervalCp % 0x100_0000 && Word24(b[4], b[5], b[6]) == c.intervalPc % 0x100_0000
      && Word(b[10], b[11]) == c.latencyCp && Word(b[12], b[13]) == c.latencyPc
    ensures var (b, s) := (Payload(c)[15 + 9 * i..], c.cis[i]);
      && b[0] == s.id && Word(b[1], b[2]) == s.maxSduCp && Word(b[3], b[4]) == s.maxSduPc
      && b[5] == s.phyCp && b[6] == s.phyPc && b[7] == s.rtnCp && b[8] == s.rtnPc
  {
    hide Word24, Word, Low, Middle, High, Wrap8, AllCisBytes;
    Word24OfThree(c.intervalCp);
    Word24OfThree(c.intervalPc);
    WordOfTwo(c.latencyCp);
    WordOfTwo(c.latencyPc);
    CountIsByte(|c.cis|);
    var b := Payload(c);
    assert forall k :: 0 <= k < HEADER ==> b[k] == HeaderBytes(c)[k];
    CisAt(c.cis, i);
    var s := c.cis[i];
    WordOfTwo(s.maxSduCp);
    WordOfTwo(s.maxSduPc);
    assert b[HEADER + PER_CIS * i..][..PER_CIS] == AllCisBytes(c.cis)[PER_CIS * i..][..PER_CIS];
    assert forall k :: 0 <= k < PER_CIS ==>
      b[HEADER + PER_CIS * i..][k] == b[HEADER + PER_CIS * i..][..PER_CIS][k] == CisBytes(s)[k];
  }

  lemma {:induction false} CisAt(cs: seq<CisConfig>, i: nat)
    requires i < |cs|
    ensures AllCisBytes(cs)[PER_CIS * i..][..PER_CIS] == CisBytes(cs[i])
    decreases |cs|
  {
    hide CisBytes;
    var n := |cs| - 1;
    var front := AllCisBytes(cs[..n]);
    if i < n {
      CisAt(cs[..n], i);
      assert AllCisBytes(cs)[PER_CIS * i..][..PER_CIS] == front[PER_CIS * i..][..PER_CIS];
    } else {
      assert AllCisBytes(cs)[PER_CIS * n..] == CisBytes(cs[n]);
      assert CisBytes(cs[n])[..PER_CIS] == CisBytes(cs[n]);
    }
  }

  /** A reader gets the configuration back, with intervals cut to 24 bits: so exactly if they are below 2^24. */
  lemma ReadPayload(c: CigConfig)
    requires |c.cis| <= MAX_CIS
    ensures |Payload(c)| == HEADER + PER_CIS * |c.cis|
    ensures Read(Payload(c)) == Some(Cut(c))
    ensures Read(Payload(c)) == Some(c) <==> c.intervalCp < 0x100_0000 && c.intervalPc < 0x100_0000
  {
    hide HeaderBytes, AllCisBytes, ReadHeader, ReadAllCis;
    var b := Payload(c);
    CountByte(c);
    ReadHeaderBytes(c);
    ReadAllCisBytes(c.cis);
    assert b[..HEADER] == HeaderBytes(c) && b[HEADER..] == AllCisBytes(c.cis);
  }

  /** And nothing in a payload is lost on the reader. */
  lemma PayloadOfRead(b: seq<uint8>)
    requires WellFormed(b)
    ensures Payload(Read(b).value) == b
  {
    hide HeaderBytes, AllCisBytes, ReadHeader, ReadAllCis;
    BytesOfHeader(b[..HEADER], ReadAllCis(b[HEADER..]));
    BytesOfAllCis(b[HEADER..]);
    SameCis(b[..HEADER], ReadAllCis(b[HEADER..]));
    assert b == b[..HEADER] + b[HEADER..];
  }

  // The params[pos++] of the source.
  method Put(params: array<uint8>, pos: nat, x: uint8) returns (end: nat)
    requires pos < params.Length
    modifies params
    ensures end == pos + 1 && params[..end] == old(params[..pos]) + [x]
  {
    params[pos] := x;
    end := pos + 1;
  }

  method PutTwo(params: array<uint8>, pos: nat, x: uint16) returns (end: nat)
    requires pos + 1 < params.Length
    modifies params
    ensures end == pos + 2 && params[..end] == old(params[..pos]) + [Low(x), Middle(x)]
  {
    end := Put(params, pos, Low(x));
    end := Put(params, end, Middle(x));
  }

  method PutThree(params: array<uint8>, pos: nat, x: uint32) returns (end: nat)
    requires pos + 2 < params.Length
    modifies params
    ensures end == pos + 3 && params[..end] == old(params[..pos]) + [Low(x), Middle(x), High(x)]
  {
    end := Put(params, pos, Low(x));
    end := Put(params, end, Middle(x));
    end := Put(params, end, High(x));
  }

  method PutCis(params: array<uint8>, pos: nat, c: CisConfig) returns (end: nat)
    requires pos + PER_CIS <= params.Length
    modifies params
    ensures end == pos + PER_CIS && params[..end] == old(params[..pos]) + CisBytes(c)
  {
    hide Low, Middle, High;
    end := Put(params, pos, c.id);
    end := PutTwo(params, end, c.maxSduCp);
    end := PutTwo(params, end, c.maxSduPc);
    end := Put(params, end, c.phyCp);
    end := Put(params, end, c.phyPc);
    end := Put(params, end, c.rtnCp);
    end := Put(params, end, c.rtnPc);
  }

  method PutHeader(params: array<uint8>, c: CigConfig) returns (pos: nat)
    requires params.Length == 256
    modifies params
    ensures pos == HEADER && params[..pos] == HeaderBytes(c)
  {
    hide Low, Middle, High;
    pos := Put(params, 0, c.id);
    pos := PutThree(params, pos, c.intervalCp);
    pos := PutThree(params, pos, c.intervalPc);
    pos := Put(params, pos, c.sca);
    pos := Put(params, pos, c.packing);
    pos := Put(params, pos, c.framing);
    assert params[..pos] == HeaderBytes(c)[..10];
    pos := PutTwo(params, pos, c.latencyCp);
    pos := PutTwo(params, pos, c.latencyPc);
    pos := Put(params, pos, Wrap8(|c.cis|));
  }

  lemma NoCis()
    ensures AllCisBytes([]) == []
  {
  }

  lemma OneMoreCis(cs: seq<CisConfig>, i: nat)
    requires i < |cs|
    ensures AllCisBytes(cs[..i + 1]) == AllCisBytes(cs[..i]) + CisBytes(cs[i])
  {
    assert cs[..i + 1][..i] == cs[..i];
  }

  /** The command as hci_isoc_set_cig_params builds it; a reader gets the configuration back. */
  method BuildParams(params: array<uint8>, c: CigConfig) returns (pos: nat)
    requires params.Length == 256 && |c.cis| <= MAX_CIS
    modifies params
    ensures pos == HEADER + PER_CIS * |c.cis| && params[..pos] == Payload(c)
    ensures Read(params[..pos]) == Some(Cut(c))
  {
    hide HeaderBytes, CisBytes, AllCisBytes, Read, Cut;
    ReadPayload(c);
    NoCis();
    pos := PutHeader(params, c);
    for i := 0 to |c.cis|
      invariant pos == HEADER + PER_CIS * i
      invariant params[..pos] == HeaderBytes(c) + AllCisBytes(c.cis[..i])
    {
      OneMoreCis(c.cis, i);
      pos := PutCis(params, pos, c.cis[i]);
    }
    assert c.cis[..|c.cis|] == c.cis;
  }
}
